/** The branch-relative share-difficulty rule (`calculate_next_sidechain_difficulty`). */
module Retarget {
  import opened Basics
  import opened Orders
  import opened Shares

  datatype Sample = Sample(timestamp: U64, work: nat)
  datatype RetargetRule = RetargetRule(targetSeconds: U64, minimum: U64, window: U64)

  // ---- Specification ---------------------------------------------------------------------------

  ghost function Times(samples: seq<Sample>): seq<nat> {
    seq(|samples|, i requires 0 <= i < |samples| => samples[i].timestamp)
  }

  /** The k-th smallest element, counting from zero. */
  ghost function OrderStatistic(times: seq<nat>, k: nat): nat
    requires k < |times|
  {
    SortBy(times, NatLess)[k]
  }

  /** How many samples are trimmed from each end: a tenth, rounded up. */
  function Trimmed(count: nat): nat { (count + 9) / 10 }

  ghost function BandLow(samples: seq<Sample>): nat
    requires samples != []
  {
    OrderStatistic(Times(samples), Trimmed(|samples|) - 1)
  }

  ghost function BandHigh(samples: seq<Sample>): nat
    requires samples != []
  {
    OrderStatistic(Times(samples), |samples| - Trimmed(|samples|))
  }

  ghost predicate InBand(sample: Sample, low: nat, high: nat) {
    low <= sample.timestamp <= high
  }

  /** `least` and `most` bound the work of the retained samples, and are attained by them. */
  ghost predicate BandWork(samples: seq<Sample>, low: nat, high: nat, least: nat, most: nat) {
    && (exists s | s in samples :: InBand(s, low, high) && s.work == least)
    && (exists s | s in samples :: InBand(s, low, high) && s.work == most)
    && (forall s | s in samples && InBand(s, low, high) :: least <= s.work <= most)
  }

  ghost predicate TooWide(samples: seq<Sample>) {
    exists a, b | a in samples && b in samples :: a.timestamp - b.timestamp > U32_MAX
  }

  /** The divisor of the retarget quotient. */
  function Divisor(count: nat, low: nat, high: nat): (d: nat)
    ensures d >= 1
  {
    var positions := count - Trimmed(count) - (Trimmed(count) - 1);
    Max(if high > low then high - low else 0, if positions > 0 then positions else 1)
  }

  /** Work per target interval, floored at the minimum and capped by the network difficulty. */
  function Scaled(work: nat, divisor: nat, rule: RetargetRule, network: Difficulty): Difficulty
    requires divisor > 0
  {
    Min(Max(work * rule.targetSeconds / divisor, Min(rule.minimum, network)), network)
  }

  predicate UsableRule(rule: RetargetRule) {
    rule.targetSeconds > 0 && rule.minimum > 0 && rule.window >= 2
  }

  ghost function Window(history: seq<Sample>, rule: RetargetRule): seq<Sample> {
    history[..Min(|history|, rule.window)]
  }

  /** `next` is the scaled work of the band the samples determine. */
  ghost predicate ScalesBand(
    samples: seq<Sample>, rule: RetargetRule, network: Difficulty, next: Difficulty)
    requires samples != []
  {
    var low, high := BandLow(samples), BandHigh(samples);
    exists least: nat, most: nat | BandWork(samples, low, high, least, most) ::
      least <= most && next == Scaled(most - least, Divisor(|samples|, low, high), rule, network)
  }

  /** What the rule yields for a usable rule and a non-zero network difficulty. */
  ghost predicate IsNextDifficulty(
    history: seq<Sample>, rule: RetargetRule, network: Difficulty, next: Difficulty)
  {
    if Window(history, rule) == [] then next == Min(rule.minimum, network)
    else ScalesBand(Window(history, rule), rule, network, next)
  }

  ghost predicate RetargetThrows(history: seq<Sample>, rule: RetargetRule, network: Difficulty) {
    || !UsableRule(rule)
    || network == 0
    || TooWide(Window(history, rule))
  }

  /** The retarget rule as a function of its inputs. */
  ghost function NextDifficulty(history: seq<Sample>, rule: RetargetRule, network: Difficulty)
    : (r: Outcome<Difficulty>)
    ensures r.Thrown? <==> RetargetThrows(history, rule, network)
    ensures r.Value? ==> IsNextDifficulty(history, rule, network, r.value)
    ensures r.Value? ==> 0 < Min(rule.minimum, network) <= r.value <= network
  {
    if RetargetThrows(history, rule, network) then Thrown
    else
      NextDifficultyDefined(history, rule, network);
      var next: Difficulty :| IsNextDifficulty(history, rule, network, next);
      Value(next)
  }

  // ---- The specification is well defined -------------------------------------------------------

  /** The trimmed band is never empty: its two cut positions are in range and in order. */
  lemma BandPositions(count: nat)
    requires count > 0
    ensures 0 <= Trimmed(count) - 1 <= count - Trimmed(count) < count
  {
  }

  lemma OrderStatisticsMonotone(times: seq<nat>, i: nat, j: nat)
    requires i <= j < |times|
    ensures OrderStatistic(times, i) <= OrderStatistic(times, j)
    ensures OrderStatistic(times, i) in times
  {
    SortByCorrect(times, NatLess);
    SameMembers(SortBy(times, NatLess), times);
  }

  lemma BandNonEmpty(samples: seq<Sample>)
    requires samples != []
    ensures BandLow(samples) <= BandHigh(samples)
    ensures exists s | s in samples :: InBand(s, BandLow(samples), BandHigh(samples))
  {
    var n := |samples|;
    BandPositions(n);
    OrderStatisticsMonotone(Times(samples), Trimmed(n) - 1, n - Trimmed(n));
    var i :| 0 <= i < n && Times(samples)[i] == BandLow(samples);
    assert InBand(samples[i], BandLow(samples), BandHigh(samples));
  }

  lemma {:induction false} BandWorkExists(samples: seq<Sample>, low: nat, high: nat)
    returns (least: nat, most: nat)
    requires exists s | s in samples :: InBand(s, low, high)
    ensures BandWork(samples, low, high, least, most) && least <= most
  {
    var rest, last := samples[..|samples| - 1], samples[|samples| - 1];
    assert samples == rest + [last];
    if exists s | s in rest :: InBand(s, low, high) {
      least, most := BandWorkExists(rest, low, high);
      if InBand(last, low, high) {
        least, most := Min(least, last.work), Max(most, last.work);
      }
    } else {
      least, most := last.work, last.work;
      assert last in samples;
    }
  }

  lemma NextDifficultyExists(history: seq<Sample>, rule: RetargetRule, network: Difficulty)
    returns (next: Difficulty)
    ensures IsNextDifficulty(history, rule, network, next)
  {
    var samples := Window(history, rule);
    if samples == [] {
      next := Min(rule.minimum, network);
    } else {
      var low, high := BandLow(samples), BandHigh(samples);
      BandNonEmpty(samples);
      var least, most := BandWorkExists(samples, low, high);
      next := Scaled(most - least, Divisor(|samples|, low, high), rule, network);
    }
  }

  lemma NextDifficultyDefined(history: seq<Sample>, rule: RetargetRule, network: Difficulty)
    ensures exists next: Difficulty :: IsNextDifficulty(history, rule, network, next)
  {
    var _ := NextDifficultyExists(history, rule, network);
  }

  lemma BandWorkUnique(
    samples: seq<Sample>, low: nat, high: nat, a: nat, b: nat, least: nat, most: nat)
    requires BandWork(samples, low, high, a, b) && BandWork(samples, low, high, least, most)
    ensures a == least && b == most
  {
  }

  lemma BandOf(samples: seq<Sample>, rule: RetargetRule, network: Difficulty, next: Difficulty)
    returns (least: nat, most: nat)
    requires samples != [] && ScalesBand(samples, rule, network, next)
    ensures BandWork(samples, BandLow(samples), BandHigh(samples), least, most) && least <= most
    ensures next == Scaled(most - least, Divisor(|samples|, BandLow(samples), BandHigh(samples)),
                           rule, network)
  {
    least, most :| BandWork(samples, BandLow(samples), BandHigh(samples), least, most) && least <= most
      && next == Scaled(most - least, Divisor(|samples|, BandLow(samples), BandHigh(samples)), rule, network);
  }

  lemma NextDifficultyUnique(
    history: seq<Sample>, rule: RetargetRule, network: Difficulty, a: Difficulty, b: Difficulty)
    requires IsNextDifficulty(history, rule, network, a)
    requires IsNextDifficulty(history, rule, network, b)
    ensures a == b
  {
    var samples := Window(history, rule);
    if samples != [] {
      var p, q := BandOf(samples, rule, network, a);
      var p', q' := BandOf(samples, rule, network, b);
      BandWorkUnique(samples, BandLow(samples), BandHigh(samples), p, q, p', q');
    }
  }

  // ---- The result ignores the order of the samples ---------------------------------------------

  lemma TimesWithout(front: seq<Sample>, x: Sample, back: seq<Sample>)
    ensures multiset(Times(front + [x] + back)) == multiset(Times(front + back)) + multiset{x.timestamp}
  {
    assert Times(front + [x] + back) == Times(front) + [x.timestamp] + Times(back);
    assert Times(front + back) == Times(front) + Times(back);
  }

  lemma {:induction false} TimesPermutation(a: seq<Sample>, b: seq<Sample>)
    requires multiset(a) == multiset(b)
    ensures multiset(Times(a)) == multiset(Times(b))
  {
    SameMembers(a, b);
    if a != [] {
      hide Times;
      var last := |a| - 1;
      assert a[last] in b;
      var i :| 0 <= i < |b| && b[i] == a[last];
      RemoveEqual(a, b, i);
      TimesPermutation(a[..last], b[..i] + b[i + 1..]);
      TimesWithout(b[..i], b[i], b[i + 1..]);
      TimesWithout(a[..last], a[last], []);
      assert b == b[..i] + [b[i]] + b[i + 1..];
      assert a == a[..last] + [a[last]] + [] && a[..last] + [] == a[..last];
    }
  }

  lemma ScalesBandPermutation(
    a: seq<Sample>, b: seq<Sample>, rule: RetargetRule, network: Difficulty, next: Difficulty)
    requires multiset(a) == multiset(b) && a != [] && b != []
    requires ScalesBand(a, rule, network, next)
    ensures ScalesBand(b, rule, network, next)
  {
    SameMembers(a, b);
    TimesPermutation(a, b);
    SortByPermutation(Times(a), Times(b), NatLess);
    var low, high := BandLow(a), BandHigh(a);
    var least, most := BandOf(a, rule, network, next);
    assert BandWork(b, low, high, least, most);
    assert BandLow(b) == low && BandHigh(b) == high;
  }

  /** Within the configured window, only the collection of samples matters. */
  lemma NextDifficultyPermutation(
    a: seq<Sample>, b: seq<Sample>, rule: RetargetRule, network: Difficulty)
    requires multiset(a) == multiset(b) && |a| <= rule.window
    ensures NextDifficulty(a, rule, network) == NextDifficulty(b, rule, network)
  {
    SameMembers(a, b);
    assert Window(a, rule) == a && Window(b, rule) == b;
    assert TooWide(a) <==> TooWide(b);
    var x, y := NextDifficulty(a, rule, network), NextDifficulty(b, rule, network);
    if x.Value? {
      if a != [] {
        ScalesBandPermutation(a, b, rule, network, x.value);
      }
      NextDifficultyUnique(b, rule, network, x.value, y.value);
    }
  }

  // ---- The program -----------------------------------------------------------------------------

  /** `std::nth_element`, known to its callers by its standard contract alone. */
  method NthElement(values: seq<nat>, k: nat) returns (r: seq<nat>)
    requires k < |values|
    ensures multiset(r) == multiset(values) && |r| == |values|
    ensures forall i | 0 <= i < k :: r[i] <= r[k]
    ensures forall i | k < i < |r| :: r[k] <= r[i]
  {
    r := SortBy(values, NatLess);
    SortByCorrect(values, NatLess);
  }

  /** An element that splits a sequence into smaller and larger parts is its order statistic. */
  lemma SplitIsOrderStatistic(values: seq<nat>, k: nat)
    requires k < |values|
    requires forall i | 0 <= i < k :: values[i] <= values[k]
    requires forall i | k < i < |values| :: values[k] <= values[i]
    ensures OrderStatistic(values, k) == values[k]
  {
    var left, right := values[..k], values[k + 1..];
    assert values == left + [values[k]] + right;
    hide OrderStatistic;
    MiddleIsOrderStatistic(left, values[k], right);
  }

  lemma MiddleIsOrderStatistic(left: seq<nat>, middle: nat, right: seq<nat>)
    requires (forall x | x in left :: x <= middle) && (forall x | x in right :: middle <= x)
    ensures OrderStatistic(left + [middle] + right, |left|) == middle
  {
    hide SortBy, SortedBy;
    var values, a, b := left + [middle] + right, SortBy(left, NatLess), SortBy(right, NatLess);
    SortByCorrect(left, NatLess);
    SortByCorrect(right, NatLess);
    SameMembers(a, left);
    SameMembers(b, right);
    SortedAround(a, middle, b);
    SortByCorrect(values, NatLess);
    AroundPermutes(left, right, a, b, middle);
    SortedUnique(a + [middle] + b, SortBy(values, NatLess), NatLess);
  }

  lemma AroundPermutes(left: seq<nat>, right: seq<nat>, a: seq<nat>, b: seq<nat>, middle: nat)
    requires multiset(a) == multiset(left) && multiset(b) == multiset(right)
    ensures multiset(a + [middle] + b) == multiset(left + [middle] + right)
    ensures |a| == |left|
  {
    SameMembers(a, left);
  }

  lemma SortedAround(left: seq<nat>, middle: nat, right: seq<nat>)
    requires SortedBy(left, NatLess) && SortedBy(right, NatLess)
    requires forall x | x in left :: x <= middle
    requires forall x | x in right :: middle <= x
    ensures SortedBy(left + [middle] + right, NatLess)
  {
    var s := left + [middle] + right;
    forall i, j | 0 <= i < j < |s|
      ensures s[i] <= s[j]
    {
      assert i < |left| ==> s[i] == left[i] && s[i] in left;
      assert j < |left| ==> s[j] == left[j];
      assert j > |left| ==> s[j] == right[j - |left| - 1] && s[j] in right;
      assert i > |left| ==> s[i] == right[i - |left| - 1];
    }
  }

  /** Selecting among offsets from the oldest timestamp selects among timestamps. */
  lemma ShiftedOrderStatistic(deltas: seq<nat>, times: seq<nat>, base: nat, k: nat)
    requires |deltas| == |times| && k < |times|
    requires forall i | 0 <= i < |times| :: times[i] == base + deltas[i]
    ensures OrderStatistic(times, k) == base + OrderStatistic(deltas, k)
  {
    SortShifted(deltas, times, base);
  }

  lemma {:induction false} SortShifted(deltas: seq<nat>, times: seq<nat>, base: nat)
    requires |deltas| == |times|
    requires forall i | 0 <= i < |times| :: times[i] == base + deltas[i]
    ensures forall i | 0 <= i < |times| ::
      SortBy(times, NatLess)[i] == base + SortBy(deltas, NatLess)[i]
  {
    if times != [] {
      SortShifted(deltas[1..], times[1..], base);
      InsertShifted(deltas[0], SortBy(deltas[1..], NatLess),
                    times[0], SortBy(times[1..], NatLess), base);
    }
  }

  lemma {:induction false} InsertShifted(d: nat, ds: seq<nat>, t: nat, ts: seq<nat>, base: nat)
    requires t == base + d && |ds| == |ts|
    requires forall i | 0 <= i < |ts| :: ts[i] == base + ds[i]
    ensures forall i | 0 <= i < |ts| + 1 ::
      InsertBy(t, ts, NatLess)[i] == base + InsertBy(d, ds, NatLess)[i]
  {
    if ts == [] || t < ts[0] {
    } else {
      InsertShifted(d, ds[1..], t, ts[1..], base);
    }
  }

  method CalculateNextDifficulty(history: seq<Sample>, rule: RetargetRule, network: Difficulty)
    returns (r: Outcome<Difficulty>)
    ensures r == NextDifficulty(history, rule, network)
  {
    if rule.targetSeconds == 0 || rule.minimum == 0 || rule.window < 2 || network == 0 {
      return Thrown;
    }
    var floor := Min(rule.minimum, network);
    if history == [] {
      NextDifficultyUnique(history, rule, network, floor, NextDifficulty(history, rule, network).value);
      return Value(floor);
    }

    var count := Min(|history|, rule.window);
    var samples := history[..count];
    var deltas, oldest := TimestampDeltas(samples);
    if deltas.Thrown? {
      return Thrown;
    }

    var cut := Trimmed(count);
    BandPositions(count);
    var low, order := SelectTimestamp(samples, deltas.value, oldest, deltas.value, cut - 1);
    var high, _ := SelectTimestamp(samples, deltas.value, oldest, order, count - cut);
    BandNonEmpty(samples);

    var least, most := RetainedWork(samples, low, high);
    var next := (most - least) * rule.targetSeconds / Divisor(count, low, high);
    next := Max(next, floor);
    next := Min(next, network);
    assert next == Scaled(most - least, Divisor(count, low, high), rule, network);
    assert IsNextDifficulty(history, rule, network, next);
    NextDifficultyUnique(history, rule, network, next, NextDifficulty(history, rule, network).value);
    return Value(next);
  }

  /** Offsets from the oldest timestamp, refused when one does not fit 32 bits. */
  method TimestampDeltas(samples: seq<Sample>) returns (deltas: Outcome<seq<nat>>, oldest: nat)
    requires samples != []
    ensures deltas.Thrown? <==> TooWide(samples)
    ensures deltas.Value? ==> |deltas.value| == |samples|
    ensures deltas.Value? ==> forall i | 0 <= i < |samples| :: samples[i].timestamp == oldest + deltas.value[i]
  {
    oldest := U64_MAX;
    ghost var holder := samples[0];
    for i := 0 to |samples|
      invariant forall j | 0 <= j < i :: oldest <= samples[j].timestamp
      invariant oldest == U64_MAX || (holder in samples && holder.timestamp == oldest)
    {
      if samples[i].timestamp < oldest {
        oldest, holder := samples[i].timestamp, samples[i];
      }
    }
    if oldest == U64_MAX {
      holder := samples[0];
    }
    assert holder in samples && holder.timestamp == oldest;
    var ds: seq<nat> := [];
    for i := 0 to |samples|
      invariant |ds| == i
      invariant forall j | 0 <= j < i :: samples[j].timestamp == oldest + ds[j] && ds[j] <= U32_MAX
    {
      var delta := samples[i].timestamp - oldest;
      if delta > U32_MAX {
        assert samples[i] in samples && holder in samples;
        return Thrown, oldest;
      }
      ds := ds + [delta];
    }
    forall a, b | a in samples && b in samples
      ensures a.timestamp - b.timestamp <= U32_MAX
    {
    }
    return Value(ds), oldest;
  }

  /** One `nth_element` call over a permutation of the offsets. */
  method SelectTimestamp(
    samples: seq<Sample>, deltas: seq<nat>, oldest: nat, arrangement: seq<nat>, k: nat)
    returns (timestamp: nat, rearranged: seq<nat>)
    requires |deltas| == |samples| && multiset(arrangement) == multiset(deltas) && k < |samples|
    requires forall i | 0 <= i < |samples| :: samples[i].timestamp == oldest + deltas[i]
    ensures timestamp == OrderStatistic(Times(samples), k)
    ensures multiset(rearranged) == multiset(deltas)
  {
    SameMembers(arrangement, deltas);
    rearranged := NthElement(arrangement, k);
    timestamp := oldest + rearranged[k];
    SplitIsOrderStatistic(rearranged, k);
    SortByPermutation(rearranged, deltas, NatLess);
    ShiftedOrderStatistic(deltas, Times(samples), oldest, k);
  }

  /** The smallest and largest cumulative work among retained samples. */
  method RetainedWork(samples: seq<Sample>, low: nat, high: nat) returns (least: nat, most: nat)
    requires exists s | s in samples :: InBand(s, low, high)
    ensures BandWork(samples, low, high, least, most) && least <= most
  {
    var found := false;
    least, most := 0, 0;
    for i := 0 to |samples|
      invariant found <==> exists s | s in samples[..i] :: InBand(s, low, high)
      invariant found ==> BandWork(samples[..i], low, high, least, most) && least <= most
    {
      var sample := samples[i];
      assert samples[..i + 1] == samples[..i] + [sample];
      if low <= sample.timestamp <= high {
        assert sample in samples[..i + 1];
        if !found {
          found, least, most := true, sample.work, sample.work;
        } else {
          least, most := Min(least, sample.work), Max(most, sample.work);
        }
      }
    }
    assert samples[..|samples|] == samples;
  }
}

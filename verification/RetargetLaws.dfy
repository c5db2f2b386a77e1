/** The retarget rule in numbers: what it answers for a steady pace, how it responds to its parameters, and
    what it computes, by counting samples instead of sorting them. */
module RetargetLaws {
  import opened Basics
  import opened Orders
  import opened Shares
  import opened Retarget

  /** Raised to the minimum, and cut off at the network difficulty. */
  function Clamped(x: int, rule: RetargetRule, network: Difficulty): int {
    if x >= network then network
    else if x < rule.minimum then (if rule.minimum < network then rule.minimum else network)
    else x
  }

  // ---- A steady pace ---------------------------------------------------------------------------

  /** Newest first, `gap` seconds apart, each share adding `work`. */
  ghost predicate Steady(history: seq<Sample>, gap: nat, work: nat) {
    forall i | 0 <= i < |history| ::
      && history[i].timestamp + i * gap == history[0].timestamp
      && history[i].work + i * work == history[0].work
  }

  /** The timestamps, oldest first. */
  ghost function Rising(history: seq<Sample>): seq<nat> {
    seq(|history|, i requires 0 <= i < |history| => history[|history| - 1 - i].timestamp)
  }

  lemma {:induction false} RisingPermutes(history: seq<Sample>)
    ensures multiset(Rising(history)) == multiset(Times(history))
  {
    if history != [] {
      var front, last := history[..|history| - 1], history[|history| - 1];
      RisingPermutes(front);
      assert Times(history) == Times(front) + [last.timestamp];
      assert Rising(history) == [last.timestamp] + Rising(front);
    }
  }

  lemma {:induction false} Multiples(i: nat, j: nat, gap: nat)
    requires i <= j
    ensures 0 <= i * gap <= j * gap
    ensures i < j ==> i * gap + gap <= j * gap
    decreases j
  {
    if i < j {
      Multiples(i, j - 1, gap);
      assert j * gap == (j - 1) * gap + gap;
    } else {
      assert i * gap >= 0;
    }
  }

  /** The k-th smallest timestamp of a steady history. */
  lemma SteadyStatistic(history: seq<Sample>, gap: nat, work: nat, k: nat)
    requires Steady(history, gap, work) && k < |history|
    ensures OrderStatistic(Times(history), k) == history[|history| - 1 - k].timestamp
  {
    var n, rising := |history|, Rising(history);
    forall i, j | 0 <= i <= j < n
      ensures rising[i] <= rising[j]
    {
      Multiples(n - 1 - j, n - 1 - i, gap);
    }
    SplitIsOrderStatistic(rising, k);
    RisingPermutes(history);
    assert TotalOrder(NatLess);
    SortByPermutation(rising, Times(history), NatLess);
  }

  /** The band of a steady history runs from one cut to the other, and so does its work. */
  lemma SteadyBand(history: seq<Sample>, gap: nat, work: nat)
    requires Steady(history, gap, work) && |history| >= 2 && gap > 0
    ensures var n, cut := |history|, (|history| + 9) / 10;
      var low, high := history[n - cut], history[cut - 1];
      && BandLow(history) == low.timestamp && BandHigh(history) == high.timestamp
      && BandWork(history, low.timestamp, high.timestamp, low.work, high.work)
      && high.timestamp - low.timestamp == (n - 2 * cut + 1) * gap
      && high.work - low.work == (n - 2 * cut + 1) * work
      && n - 2 * cut + 1 > 0
  {
    var n, cut := |history|, (|history| + 9) / 10;
    var low, high := history[n - cut], history[cut - 1];
    SteadyStatistic(history, gap, work, cut - 1);
    SteadyStatistic(history, gap, work, n - cut);
    Difference(n - cut, cut - 1, gap);
    Difference(n - cut, cut - 1, work);
    assert low in history && high in history;
    Multiples(cut - 1, n - cut, gap);
    forall s | s in history && InBand(s, low.timestamp, high.timestamp)
      ensures low.work <= s.work <= high.work
    {
      var i :| 0 <= i < n && history[i] == s;
      if i < cut - 1 {
        Multiples(i, cut - 1, gap);
        assert false;
      }
      if i > n - cut {
        Multiples(n - cut, i, gap);
        assert false;
      }
      Multiples(cut - 1, i, work);
      Multiples(i, n - cut, work);
    }
  }

  lemma Difference(a: nat, b: nat, gap: nat)
    requires b <= a
    ensures a * gap - b * gap == (a - b) * gap
  {
  }

  lemma SteadyNotTooWide(history: seq<Sample>, gap: nat, work: nat)
    requires Steady(history, gap, work) && history != [] && (|history| - 1) * gap <= U32_MAX
    ensures !TooWide(history)
  {
    forall a, b | a in history && b in history
      ensures a.timestamp - b.timestamp <= U32_MAX
    {
      var i :| 0 <= i < |history| && history[i] == a;
      var j :| 0 <= j < |history| && history[j] == b;
      Multiples(j, |history| - 1, gap);
    }
  }

  lemma LessFactor(a: nat, b: nat, d: nat)
    requires a * d < b * d
    ensures a < b
  {
    if a >= b {
      Multiples(b, a, d);
    }
  }

  lemma DivisionBounds(n: nat, d: nat)
    requires d > 0
    ensures 0 <= (n / d) * d <= n < (n / d) * d + d && n / d >= 0
  {
    assert n == (n / d) * d + n % d;
  }

  lemma QuotientIs(n: nat, d: nat, q: nat)
    requires d > 0 && q * d <= n < q * d + d
    ensures n / d == q
  {
    DivisionBounds(n, d);
    assert (q + 1) * d == q * d + d && (n / d + 1) * d == (n / d) * d + d;
    LessFactor(n / d, q + 1, d);
    LessFactor(q, n / d + 1, d);
  }

  lemma Reassociate(k: nat, q: nat, g: nat)
    ensures k * (q * g) == q * (k * g)
  {
  }

  lemma CancelFactor(k: nat, x: nat, g: nat)
    requires k > 0 && g > 0
    ensures k * g > 0 && k * x >= 0 && (k * x) / (k * g) == x / g
  {
    var q := x / g;
    DivisionBounds(x, g);
    var qg := q * g;
    ScaleOrder(k, qg, x);
    ScaleOrder(k, x + 1, qg + g);
    Reassociate(k, q, g);
    Distribute(k, qg, g);
    Distribute(k, x, 1);
    QuotientIs(k * x, k * g, q);
  }

  lemma ScaleOrder(k: nat, a: nat, b: nat)
    requires a <= b
    ensures 0 <= k * a <= k * b
    ensures a > 0 && k > 0 ==> k * a > 0
  {
    Multiples(a, b, k);
  }

  lemma Distribute(k: nat, a: nat, b: nat)
    ensures k * (a + b) == k * a + k * b
    ensures k > 0 && b > 0 ==> k * b > 0
  {
  }

  /** The work of `k` shares over the time of `k` gaps is the work of one over one. */
  lemma PaceRatio(k: nat, work: nat, t: nat, gap: nat)
    requires k > 0 && gap > 0
    ensures k * gap > 0 && (k * work) * t / (k * gap) == work * t / gap
  {
    assert (k * work) * t == k * (work * t);
    CancelFactor(k, work * t, gap);
  }

  lemma ClampIs(work: nat, divisor: nat, rule: RetargetRule, network: Difficulty)
    requires divisor > 0
    ensures Scaled(work, divisor, rule, network) == Clamped(work * rule.targetSeconds / divisor, rule, network)
  {
    DivisionBounds(work * rule.targetSeconds, divisor);
  }

  lemma SteadyDivisor(n: nat, cut: nat, low: nat, high: nat, gap: nat)
    requires cut == (n + 9) / 10 && n - 2 * cut + 1 > 0 && gap > 0
    requires high - low == (n - 2 * cut + 1) * gap
    ensures Divisor(n, low, high) == (n - 2 * cut + 1) * gap
  {
    var k := n - 2 * cut + 1;
    Multiples(1, gap, k);
    assert gap * k == k * gap && 1 * k == k;
  }

  /** Shares of work `work` every `gap` seconds call for the work that fits the target interval, clamped. */
  lemma SteadyPace(history: seq<Sample>, gap: nat, work: nat, rule: RetargetRule, network: Difficulty)
    requires Steady(history, gap, work) && 2 <= |history| <= rule.window && gap > 0
    requires (|history| - 1) * gap <= U32_MAX && UsableRule(rule) && network > 0
    ensures NextDifficulty(history, rule, network) == Value(Clamped(work * rule.targetSeconds / gap, rule, network))
  {
    hide Steady, TooWide, OrderStatistic, BandLow, BandHigh, BandWork, Scaled, Divisor, Clamped;
    var n, cut, t := |history|, (|history| + 9) / 10, rule.targetSeconds;
    var k := n - 2 * cut + 1;
    assert Window(history, rule) == history;
    SteadyBand(history, gap, work);
    SteadyNotTooWide(history, gap, work);
    var low, high := history[n - cut], history[cut - 1];
    var next := NextDifficulty(history, rule, network).value;
    var least, most := BandOf(history, rule, network, next);
    BandWorkUnique(history, low.timestamp, high.timestamp, least, most, low.work, high.work);
    SteadyDivisor(n, cut, low.timestamp, high.timestamp, gap);
    PaceRatio(k, work, t, gap);
    ClampIs(most - least, k * gap, rule, network);
  }

  /** On target, the difficulty stays what the shares have been worth. */
  lemma OnTarget(history: seq<Sample>, work: nat, rule: RetargetRule, network: Difficulty)
    requires UsableRule(rule) && network > 0 && 2 <= |history| <= rule.window
    requires Steady(history, rule.targetSeconds, work) && (|history| - 1) * rule.targetSeconds <= U32_MAX
    ensures NextDifficulty(history, rule, network) == Value(Clamped(work, rule, network))
  {
    hide Steady, Clamped, NextDifficulty;
    SteadyPace(history, rule.targetSeconds, work, rule, network);
    CancelFactor(rule.targetSeconds, work, 1);
    assert rule.targetSeconds * work == work * rule.targetSeconds && rule.targetSeconds * 1 == rule.targetSeconds;
  }

  /** At a pace `k` times slower than the target it drops to a `k`-th. */
  lemma SlowPace(history: seq<Sample>, k: nat, gap: nat, work: nat, rule: RetargetRule, network: Difficulty)
    requires UsableRule(rule) && network > 0 && 2 <= |history| <= rule.window && k > 0
    requires gap == k * rule.targetSeconds && Steady(history, gap, work) && (|history| - 1) * gap <= U32_MAX
    ensures NextDifficulty(history, rule, network) == Value(Clamped(work / k, rule, network))
  {
    hide Steady, Clamped, NextDifficulty;
    var t := rule.targetSeconds;
    CancelFactor(t, work, k);
    assert t * work == work * t && t * k == k * t;
    SteadyPace(history, gap, work, rule, network);
  }

  // ---- Responses to the parameters -------------------------------------------------------------

  lemma QuotientMonotone(a: nat, b: nat, d: nat)
    requires a <= b && d > 0
    ensures a / d <= b / d
  {
    DivisionBounds(a, d);
    assert d * (a / d) == (a / d) * d;
    QuotientAtLeast(b, d, a / d);
  }

  lemma ScaledMonotone(work: nat, d: nat, rule: RetargetRule, longer: U64, network: Difficulty)
    requires d > 0 && rule.targetSeconds <= longer
    ensures Scaled(work, d, rule, network) <= Scaled(work, d, rule.(targetSeconds := longer), network)
  {
    Multiples(rule.targetSeconds, longer, work);
    assert work * rule.targetSeconds == rule.targetSeconds * work && work * longer == longer * work;
    QuotientMonotone(work * rule.targetSeconds, work * longer, d);
  }

  /** A longer target interval never lowers the difficulty. */
  lemma LongerTargetNeverLowers(history: seq<Sample>, rule: RetargetRule, longer: U64, network: Difficulty)
    requires UsableRule(rule) && network > 0 && longer >= rule.targetSeconds
    requires NextDifficulty(history, rule, network).Value?
    ensures NextDifficulty(history, rule.(targetSeconds := longer), network).Value?
    ensures NextDifficulty(history, rule, network).value
         <= NextDifficulty(history, rule.(targetSeconds := longer), network).value
  {
    hide TooWide, OrderStatistic, BandLow, BandHigh, BandWork, Scaled, Divisor;
    var rule' := rule.(targetSeconds := longer);
    assert Window(history, rule') == Window(history, rule);
    var samples := Window(history, rule);
    var a, b := NextDifficulty(history, rule, network).value, NextDifficulty(history, rule', network).value;
    if samples != [] {
      var least, most := BandOf(samples, rule, network, a);
      var least', most' := BandOf(samples, rule', network, b);
      BandWorkUnique(samples, BandLow(samples), BandHigh(samples), least, most, least', most');
      ScaledMonotone(most - least, Divisor(|samples|, BandLow(samples), BandHigh(samples)), rule, longer, network);
    }
  }

  // ---- By counting -----------------------------------------------------------------------------

  ghost function Count(xs: seq<nat>, p: nat -> bool): nat {
    if xs == [] then 0 else Count(xs[..|xs| - 1], p) + if p(xs[|xs| - 1]) then 1 else 0
  }

  ghost function Below(v: nat): nat -> bool { (x: nat) => x < v }
  ghost function AtMost(v: nat): nat -> bool { (x: nat) => x <= v }
  ghost function Above(v: nat): nat -> bool { (x: nat) => x > v }
  ghost function AtLeast(v: nat): nat -> bool { (x: nat) => x >= v }

  lemma {:induction false} CountConcat(a: seq<nat>, b: seq<nat>, p: nat -> bool)
    ensures Count(a + b, p) == Count(a, p) + Count(b, p)
  {
    if b == [] {
      assert a + b == a;
    } else {
      CountConcat(a, b[..|b| - 1], p);
      assert (a + b)[..|a + b| - 1] == a + b[..|b| - 1];
    }
  }

  lemma {:induction false} CountBounds(xs: seq<nat>, p: nat -> bool)
    ensures Count(xs, p) <= |xs|
    ensures (forall x | x in xs :: p(x)) ==> Count(xs, p) == |xs|
    ensures (forall x | x in xs :: !p(x)) ==> Count(xs, p) == 0
  {
    if xs != [] {
      CountBounds(xs[..|xs| - 1], p);
    }
  }

  lemma {:induction false} CountPermutation(a: seq<nat>, b: seq<nat>, p: nat -> bool)
    requires multiset(a) == multiset(b)
    ensures Count(a, p) == Count(b, p)
  {
    SameMembers(a, b);
    if a != [] {
      var last := a[|a| - 1];
      assert last in a;
      var i :| 0 <= i < |b| && b[i] == last;
      RemoveEqual(a, b, i);
      CountPermutation(a[..|a| - 1], b[..i] + b[i + 1..], p);
      CountConcat(b[..i], b[i + 1..], p);
      CountConcat(b[..i], [last], p);
      CountConcat(b[..i] + [last], b[i + 1..], p);
      assert b == b[..i] + [last] + b[i + 1..];
      assert [last][..0] == [];
    }
  }

  lemma SplitCount(xs: seq<nat>, sorted: seq<nat>, k: nat, p: nat -> bool)
    requires multiset(sorted) == multiset(xs) && k <= |sorted|
    ensures Count(xs, p) == Count(sorted[..k], p) + Count(sorted[k..], p)
  {
    hide Count;
    CountPermutation(sorted, xs, p);
    CountConcat(sorted[..k], sorted[k..], p);
    assert sorted == sorted[..k] + sorted[k..];
  }

  /** Fewer than `k + 1` values are below the k-th smallest, and at least that many are not above it; and the
      same from the other end. */
  lemma StatisticByCounting(xs: seq<nat>, k: nat)
    requires k < |xs|
    ensures var v := OrderStatistic(xs, k);
      && v in xs
      && Count(xs, Below(v)) <= k < Count(xs, AtMost(v))
      && Count(xs, Above(v)) <= |xs| - 1 - k < Count(xs, AtLeast(v))
  {
    hide Count;
    var sorted := SortBy(xs, NatLess);
    assert TotalOrder(NatLess);
    SortByCorrect(xs, NatLess);
    SameMembers(sorted, xs);
    hide SortBy, TotalOrder;
    CountAround(xs, sorted, k);
    CountBeyond(xs, sorted, k);
  }

  ghost predicate AllAtMost(xs: seq<nat>, v: nat) { forall i | 0 <= i < |xs| :: xs[i] <= v }
  ghost predicate AllAtLeast(xs: seq<nat>, v: nat) { forall i | 0 <= i < |xs| :: xs[i] >= v }

  lemma SortedParts(sorted: seq<nat>, k: nat)
    requires SortedBy(sorted, NatLess) && k < |sorted|
    ensures AllAtMost(sorted[..k], sorted[k]) && AllAtMost(sorted[..k + 1], sorted[k])
    ensures AllAtLeast(sorted[k..], sorted[k]) && AllAtLeast(sorted[k + 1..], sorted[k])
  {
  }

  lemma CountAround(xs: seq<nat>, sorted: seq<nat>, k: nat)
    requires multiset(sorted) == multiset(xs) && SortedBy(sorted, NatLess) && k < |sorted|
    ensures Count(xs, Below(sorted[k])) <= k < Count(xs, AtMost(sorted[k]))
  {
    SortedParts(sorted, k);
    hide Count, SortedBy;
    var v := sorted[k];
    SplitCount(xs, sorted, k, Below(v));
    CountBounds(sorted[..k], Below(v));
    CountBounds(sorted[k..], Below(v));
    SplitCount(xs, sorted, k + 1, AtMost(v));
    CountBounds(sorted[..k + 1], AtMost(v));
  }

  lemma CountBeyond(xs: seq<nat>, sorted: seq<nat>, k: nat)
    requires multiset(sorted) == multiset(xs) && SortedBy(sorted, NatLess) && k < |sorted|
    ensures Count(xs, Above(sorted[k])) <= |sorted| - 1 - k < Count(xs, AtLeast(sorted[k]))
  {
    SortedParts(sorted, k);
    hide Count, SortedBy;
    var v := sorted[k];
    SplitCount(xs, sorted, k + 1, Above(v));
    CountBounds(sorted[..k + 1], Above(v));
    CountBounds(sorted[k + 1..], Above(v));
    SplitCount(xs, sorted, k, AtLeast(v));
    CountBounds(sorted[k..], AtLeast(v));
  }

  /** `low` and `high` cut a tenth of the timestamps, rounded up, off each end. */
  ghost predicate CutsTenths(times: seq<nat>, low: nat, high: nat, cut: nat) {
    && |times| <= 10 * cut < |times| + 10
    && low in times && high in times
    && Count(times, Below(low)) < cut <= Count(times, AtMost(low))
    && Count(times, Above(high)) < cut <= Count(times, AtLeast(high))
  }

  lemma BandCutsTenths(samples: seq<Sample>)
    requires samples != []
    ensures CutsTenths(Times(samples), BandLow(samples), BandHigh(samples), (|samples| + 9) / 10)
  {
    var times, n, cut := Times(samples), |samples|, (|samples| + 9) / 10;
    hide OrderStatistic, Count;
    StatisticByCounting(times, cut - 1);
    StatisticByCounting(times, n - cut);
  }

  /** The work between the cuts. */
  ghost predicate SpansWork(samples: seq<Sample>, low: nat, high: nat, least: nat, most: nat) {
    && (exists s :: s in samples && low <= s.timestamp <= high && s.work == least)
    && (exists s :: s in samples && low <= s.timestamp <= high && s.work == most)
    && (forall s | s in samples && low <= s.timestamp <= high :: least <= s.work <= most)
  }

  /** The longest of the time between the cuts, the number of gaps between them, and one. */
  ghost predicate LongestOf(delta: nat, span: int, gaps: int) {
    delta >= 1 && delta >= span && delta >= gaps && (delta == 1 || delta == span || delta == gaps)
  }

  ghost predicate IsQuotient(quotient: int, n: int, delta: int) {
    quotient * delta <= n < quotient * delta + delta
  }

  /** The rule in numbers: a tenth is cut off each end by time; the work spanned by the rest, times the target
      interval, is divided by the longest of the time spanned, the number of gaps kept, and one; and the
      quotient is clamped. */
  lemma RetargetInNumbers(history: seq<Sample>, rule: RetargetRule, network: Difficulty)
    returns (cut: nat, low: nat, high: nat, least: nat, most: nat, delta: nat, quotient: nat)
    requires NextDifficulty(history, rule, network).Value? && history != []
    ensures var samples := history[..if |history| <= rule.window then |history| else rule.window];
      && CutsTenths(Times(samples), low, high, cut) && low <= high
      && SpansWork(samples, low, high, least, most) && least <= most
      && LongestOf(delta, high - low, |samples| - 2 * cut + 1)
      && IsQuotient(quotient, (most - least) * rule.targetSeconds, delta)
      && NextDifficulty(history, rule, network).value == Clamped(quotient, rule, network)
  {
    hide OrderStatistic, TooWide, Count, CutsTenths, BandLow, BandHigh, Scaled, Clamped, Divisor;
    var samples := Window(history, rule);
    assert samples == history[..if |history| <= rule.window then |history| else rule.window];
    cut, low, high := (|samples| + 9) / 10, BandLow(samples), BandHigh(samples);
    BandCutsTenths(samples);
    BandNonEmpty(samples);
    least, most := BandOf(samples, rule, network, NextDifficulty(history, rule, network).value);
    delta := Divisor(|samples|, low, high);
    DivisorIsLongest(|samples|, low, high);
    DivisionBounds((most - least) * rule.targetSeconds, delta);
    quotient := (most - least) * rule.targetSeconds / delta;
    ClampIs(most - least, delta, rule, network);
  }

  lemma DivisorIsLongest(n: nat, low: nat, high: nat)
    requires low <= high
    ensures LongestOf(Divisor(n, low, high), high - low, n - 2 * ((n + 9) / 10) + 1)
  {
  }

  /** Without history the minimum applies, capped by the network. */
  lemma NoHistory(rule: RetargetRule, network: Difficulty)
    requires UsableRule(rule) && network > 0
    ensures NextDifficulty([], rule, network) == Value(Clamped(0, rule, network))
  {
    assert Window([], rule) == [];
  }
}

/** The PPLNS window and the retarget history, read off the branch share by share. */
module WindowLaws {
  import opened Basics
  import opened Orders
  import opened Shares
  import opened Retarget
  import opened RetargetLaws
  import opened ShareTree
  import opened TreeInvariant
  import opened Agreement
  import opened Windows
  import opened Pplns

  // ---- What a miner's row is worth -------------------------------------------------------------

  /** The difficulties of one miner's own shares, added up. */
  ghost function OwnWork(shares: seq<Share>, m: MinerId): nat {
    if shares == [] then 0
    else
      var last := |shares| - 1;
      OwnWork(shares[..last], m) + if shares[last].miner == m then shares[last].difficulty else 0
  }

  lemma {:induction false} FullCredit(shares: seq<Share>, requested: nat, m: MinerId)
    requires TotalWork(shares) <= requested
    ensures CreditedTo(shares, requested, m) == OwnWork(shares, m)
  {
    if shares != [] {
      FullCredit(shares[..|shares| - 1], requested, m);
    }
  }

  /** A miner earns the work of its own shares, less what the oldest one has beyond the request. */
  lemma CreditIsOwnWork(shares: seq<Share>, requested: nat, m: MinerId)
    requires shares != [] && TotalWork(shares[..|shares| - 1]) < requested
    ensures CreditedTo(shares, requested, m)
      + (if shares[|shares| - 1].miner == m then TotalWork(shares) - Min(requested, TotalWork(shares)) else 0)
      == OwnWork(shares, m)
  {
    FullCredit(shares[..|shares| - 1], requested, m);
  }

  ghost predicate KeysShown(shares: seq<Share>, row: MinerWork) {
    && (row.payout.Some? ==> exists s :: s in shares && s.miner == row.miner && s.payout == row.payout)
    && (row.payout.None? ==> forall s | s in shares && s.miner == row.miner :: s.payout.None?)
  }

  ghost predicate PaysOwnWork(shares: seq<Share>, covered: nat, row: MinerWork)
    requires shares != []
  {
    row.work + (if shares[|shares| - 1].miner == row.miner then TotalWork(shares) - covered else 0)
      == OwnWork(shares, row.miner)
  }

  /** The shares a window includes: as few of the newest as reach the request, or the whole branch. */
  ghost predicate IncludesNewest(branch: seq<Share>, w: Window) {
    && 0 < w.included <= |branch|
    && TotalWork(branch[..w.included - 1]) < w.requested
    && (TotalWork(branch[..w.included]) >= w.requested || w.included == |branch|)
    && (w.complete <==> TotalWork(branch[..w.included]) >= w.requested)
    && w.covered == (if w.complete then w.requested else TotalWork(branch[..w.included]))
  }

  /** One row per miner of an included share, in identifier order, with its own work and the keys it shows. */
  ghost predicate RowsAreOwn(shares: seq<Share>, covered: nat, rows: seq<MinerWork>)
    requires shares != []
  {
    && (forall i, j | 0 <= i < j < |rows| :: rows[i].miner < rows[j].miner)
    && (forall s | s in shares :: exists row :: row in rows && row.miner == s.miner)
    && (forall row | row in rows :: OwnRow(shares, covered, row))
  }

  ghost predicate OwnRow(shares: seq<Share>, covered: nat, row: MinerWork)
    requires shares != []
  {
    && (exists s :: s in shares && s.miner == row.miner)
    && PaysOwnWork(shares, covered, row) && KeysShown(shares, row)
  }

  lemma RowIsOwn(shares: seq<Share>, requested: nat, m: MinerId)
    requires shares != [] && TotalWork(shares[..|shares| - 1]) < requested
    ensures var row := RowFor(shares, requested, m);
      PaysOwnWork(shares, Min(requested, TotalWork(shares)), row) && KeysShown(shares, row)
  {
    CreditIsOwnWork(shares, requested, m);
    PayoutForMember(shares, m);
    hide CreditedTo, PayoutFor, TotalWork, OwnWork;
  }

  lemma RowsOwn(shares: seq<Share>, requested: nat, ids: seq<MinerId>)
    requires shares != [] && TotalWork(shares[..|shares| - 1]) < requested
    requires Ascending(ids) && forall m :: m in ids <==> m in MinersOf(shares)
    ensures RowsAreOwn(shares, Min(requested, TotalWork(shares)), RowsFor(shares, requested, ids))
  {
    hide PaysOwnWork, KeysShown, RowFor, TotalWork;
    var rows, covered := RowsFor(shares, requested, ids), Min(requested, TotalWork(shares));
    forall i | 0 <= i < |rows|
      ensures rows[i].miner == ids[i] && OwnRow(shares, covered, rows[i])
    {
      assert ids[i] in ids;
      RowIsOwn(shares, requested, ids[i]);
      RowNames(shares, requested, ids[i]);
    }
    hide OwnRow;
    forall s | s in shares
      ensures exists row :: row in rows && row.miner == s.miner
    {
      assert s.miner in ids;
      var i :| 0 <= i < |ids| && ids[i] == s.miner;
      assert rows[i] in rows && rows[i].miner == s.miner;
    }
  }

  lemma RowNames(shares: seq<Share>, requested: nat, m: MinerId)
    ensures RowFor(shares, requested, m).miner == m
  {
  }

  /** What a window built from a branch pays. */
  ghost predicate PaysBranch(branch: seq<Share>, w: Window) {
    IncludesNewest(branch, w) && RowsAreOwn(branch[..w.included], w.covered, w.miners)
  }

  lemma {:induction false} CoveringNonEmpty(branch: seq<Share>, requested: nat)
    requires branch != [] && requested > 0
    ensures Covering(branch, requested) != []
  {
  }

  lemma CoveringPays(branch: seq<Share>, requested: nat)
    requires branch != [] && requested > 0
    ensures PaysBranch(branch, WindowOf(Covering(branch, requested), requested))
  {
    CoveringExact(branch, requested);
    CoveringNonEmpty(branch, requested);
    ShorterIsEnough(branch, requested);
    hide Covering, RowsFor, RowsAreOwn, TotalWork, Keys, MinersOf;
    var taken := Covering(branch, requested);
    RowsOwn(taken, requested, Keys(MinersOf(taken)));
    TakenIs(branch, taken);
  }

  lemma TakenIs(branch: seq<Share>, taken: seq<Share>)
    requires taken != [] && |taken| <= |branch| && taken == branch[..|taken|]
    ensures taken[..|taken| - 1] == branch[..|taken| - 1]
  {
  }

  lemma {:induction false} ShorterIsEnough(branch: seq<Share>, requested: nat)
    ensures |Covering(branch, requested)| < |branch| ==> TotalWork(Covering(branch, requested)) >= requested
  {
    if requested > 0 && branch != [] {
      var taken := Covering(branch, requested);
      ShorterIsEnough(branch[1..], requested - Min(branch[0].difficulty, requested));
      TotalWorkFirst(taken);
      assert taken[1..] == Covering(branch[1..], requested - Min(branch[0].difficulty, requested));
    }
  }

  // ---- Windows of reachable chains -------------------------------------------------------------

  /** Every window built on a reachable chain pays each miner for its own newest shares. */
  lemma WindowPaysBranch(rules: Rules, c: Chain, p: ShareId, requested: nat)
    requires Reachable(rules, ConsistentRecords(), c) && p in c.tree && p != NO_SHARE
    requires Build(rules, c.tree, p, requested).Value?
    ensures var w := Build(rules, c.tree, p, requested).value;
      w.requested == requested > 0 && PaysBranch(Branch(c.tree, p), w)
  {
    assert requested > 0;
    hide Reachable, Branch, Build, Covering, RowsFor, PaysBranch, WindowExists;
    WindowExact(rules, c, p, requested);
    BranchStarts(c.tree, p);
    CoveringPays(Branch(c.tree, p), requested);
  }

  lemma BranchStarts(tree: Tree, p: ShareId)
    requires p in tree && p != NO_SHARE
    ensures Branch(tree, p) != [] && Branch(tree, p)[0] == tree[p].share
  {
  }

  /** The sidechain window asks for the work of the newest configured number of shares, but no more than a
      multiple of the network difficulty, and pays it from the branch. */
  lemma SidechainWindowPaysBranch(rules: Rules, c: Chain, p: ShareId, params: WindowParams, network: Difficulty)
    requires Reachable(rules, ConsistentRecords(), c) && p in c.tree && p != NO_SHARE
    requires SidechainWindow(rules, c.tree, p, params, network).Value?
    ensures var w, branch := SidechainWindow(rules, c.tree, p, params, network).value, Branch(c.tree, p);
      var n := if params.windowShares < |branch| then params.windowShares else |branch|;
      var recent, cap := TotalWork(branch[..n]), network * params.multiplier;
      && PaysBranch(branch, w) && w.complete && w.included <= params.windowShares
      && w.requested == (if recent < cap then recent else cap)
  {
    assert ParamsAllowed(params, network);
    hide Reachable, Branch, SidechainWindow, Covering, RowsFor, PaysBranch, WindowExists, ParamsAllowed, TotalWork;
    SidechainWindowExact(rules, c, p, params, network);
    BranchStarts(c.tree, p);
    CoveringPays(Branch(c.tree, p), SidechainWindow(rules, c.tree, p, params, network).value.requested);
  }

  /** When the sidechain window is refused before any share is looked at, and what it is for no parent. */
  lemma SidechainWindowTable(rules: Rules, tree: Tree, p: ShareId, params: WindowParams, network: Difficulty)
    ensures var w := SidechainWindow(rules, tree, p, params, network);
      if params.windowShares == 0 || params.windowShares > 31 || params.multiplier == 0 || network == 0 then w.Thrown?
      else if p == 0 then w == Value(Window(0, 0, 0, false, []))
      else p !in tree || (rules.policy.Some? && !tree[p].validated) ==> w.Thrown?
  {
  }

  // ---- The retarget history --------------------------------------------------------------------

  /** Timestamps and cumulative work of the newest `n` shares of a branch. */
  ghost predicate SamplesOf(history: seq<Sample>, branch: seq<Share>, n: nat) {
    && |history| == (if n < |branch| then n else |branch|)
    && (forall i | 0 <= i < |history| :: history[i] == Sample(branch[i].timestamp, TotalWork(branch[i..])))
  }

  lemma SamplesNext(s: Share, history: seq<Sample>, branch: seq<Share>, n: nat)
    requires SamplesOf(history, branch, n)
    ensures SamplesOf([Sample(s.timestamp, TotalWork([s] + branch))] + history, [s] + branch, n + 1)
  {
    hide TotalWork;
    var longer, all := [Sample(s.timestamp, TotalWork([s] + branch))] + history, [s] + branch;
    assert all[0..] == all;
    forall i | 0 < i < |longer|
      ensures longer[i] == Sample(all[i].timestamp, TotalWork(all[i..]))
    {
      assert all[i..] == branch[i - 1..];
    }
  }

  lemma HistoryUnfold(rules: Rules, tree: Tree, p: ShareId, n: nat)
    requires TreeOk(rules, tree) && p in tree && p != NO_SHARE
    ensures var s := tree[p].share;
      && History(tree, p, n + 1) == [Sample(s.timestamp, tree[p].work)] + History(tree, s.parent, n)
      && History(tree, p, 0) == [] && (IsRoot(s) ==> History(tree, s.parent, n) == [])
      && (!IsRoot(s) ==> s.parent in tree)
  {
    assert NodeOk(rules, tree, p);
  }

  /** The history is the newest shares of the branch: their timestamps, and the work up to each of them. */
  lemma {:induction false} HistoryIsBranch(rules: Rules, tree: Tree, p: ShareId, n: nat)
    requires TreeOk(rules, tree) && p in tree && p != NO_SHARE
    ensures SamplesOf(History(tree, p, n), Branch(tree, p), n)
    decreases n
  {
    hide TotalWork, TreeOk, Branch, History;
    var s := tree[p].share;
    if n == 0 {
      HistoryUnfold(rules, tree, p, 0);
    } else {
      HistoryUnfold(rules, tree, p, n - 1);
      BranchUnfold(rules, tree, p);
      BranchWork(rules, tree, p);
      hide SamplesOf;
      if IsRoot(s) {
        NoSamples(n - 1);
        SamplesNext(s, [], [], n - 1);
      } else {
        HistoryIsBranch(rules, tree, s.parent, n - 1);
        SamplesNext(s, History(tree, s.parent, n - 1), Branch(tree, s.parent), n - 1);
      }
    }
  }

  lemma NoSamples(n: nat)
    ensures SamplesOf([], [], n)
  {
  }

  /** The newest `n` shares of a branch came `gap` seconds apart with difficulty `d`; the oldest of them may
      have any. */
  ghost predicate Paced(branch: seq<Share>, n: nat, gap: nat, d: nat) {
    && n <= |branch|
    && (forall i | 0 < i < n :: branch[i].timestamp + i * gap == branch[0].timestamp)
    && (forall i | 0 <= i < n - 1 :: branch[i].difficulty == d)
  }

  lemma {:induction false} PacedWork(branch: seq<Share>, n: nat, gap: nat, d: nat, i: nat)
    requires Paced(branch, n, gap, d) && i < n
    ensures TotalWork(branch[i..]) + i * d == TotalWork(branch[0..])
  {
    if i > 0 {
      PacedWork(branch, n, gap, d, i - 1);
      var tail := branch[i - 1..];
      TotalWorkFirst(tail);
      assert tail[1..] == branch[i..] && tail[0] == branch[i - 1];
      hide TotalWork;
      assert i * d == (i - 1) * d + d;
    } else {
      assert i * d == 0;
    }
  }

  lemma PacedIsSteady(history: seq<Sample>, branch: seq<Share>, n: nat, gap: nat, d: nat)
    requires SamplesOf(history, branch, n) && Paced(branch, |history|, gap, d)
    ensures Steady(history, gap, d)
  {
    forall i | 0 <= i < |history|
      ensures history[i].timestamp + i * gap == history[0].timestamp && history[i].work + i * d == history[0].work
    {
      PacedWork(branch, |history|, gap, d, i);
      if i == 0 {
        assert i * gap == 0;
      }
    }
  }

  /** The newest shares of a branch came at a pace `k` times slower than the target, with difficulty `d`. */
  ghost predicate AtPace(branch: seq<Share>, rule: RetargetRule, k: nat, gap: nat, d: nat) {
    var n := if rule.window < |branch| then rule.window else |branch|;
    n >= 2 && k > 0 && gap == k * rule.targetSeconds && (n - 1) * gap <= U32_MAX && Paced(branch, n, gap, d)
  }

  lemma PaceOfHistory(history: seq<Sample>, branch: seq<Share>, rule: RetargetRule, k: nat, gap: nat, d: nat)
    requires SamplesOf(history, branch, rule.window) && AtPace(branch, rule, k, gap, d)
    ensures Steady(history, gap, d) && 2 <= |history| <= rule.window && (|history| - 1) * gap <= U32_MAX
    ensures k > 0 && gap == k * rule.targetSeconds
  {
    hide Paced, Steady, TotalWork;
    PacedIsSteady(history, branch, rule.window, gap, d);
  }

  lemma ExpectedIs(rules: Rules, tree: Tree, p: ShareId, network: Difficulty)
    requires rules.policy.Some? && p in tree
    ensures Expected(rules, tree, p, network) ==
      NextDifficulty(History(tree, p, rules.policy.value.rule.window), rules.policy.value.rule, network)
  {
    hide NextDifficulty;
  }

  /** On a configured chain whose newest shares came exactly on target with difficulty `d`, the next share must
      have difficulty `d`, raised to the minimum and cut off at the network's; at a pace `k` times slower, a
      `k`-th of it. */
  lemma ExpectedAtPace(rules: Rules, c: Chain, p: ShareId, k: nat, gap: nat, d: nat, network: Difficulty)
    requires Reachable(rules, ConsistentRecords(), c) && p in c.tree && p != NO_SHARE && network > 0
    requires rules.policy.Some? && UsableRule(rules.policy.value.rule)
    requires AtPace(Branch(c.tree, p), rules.policy.value.rule, k, gap, d)
    ensures k > 0 && Expected(rules, c.tree, p, network) == Value(Clamped(d / k, rules.policy.value.rule, network))
  {
    hide Reachable, Inv, TreeOk, TrustOk, Branch, AtPace, Steady, History, NextDifficulty, Clamped, UsableRule,
         SamplesOf, Expected;
    InvOf(rules, c);
    var rule := rules.policy.value.rule;
    var history := History(c.tree, p, rule.window);
    HistoryIsBranch(rules, c.tree, p, rule.window);
    PaceOfHistory(history, Branch(c.tree, p), rule, k, gap, d);
    SlowPace(history, k, gap, d, rule, network);
    ExpectedIs(rules, c.tree, p, network);
  }
}

/** The PPLNS window: which shares below a parent earn how much of the next block. */
module Pplns {
  import opened Basics
  import opened Orders
  import opened Shares
  import opened ShareTree
  import opened TreeInvariant
  import opened Agreement
  import opened Windows

  // ---- Credit by position ----------------------------------------------------------------------

  /** The work of a list of shares, newest first like every list here. */
  ghost function TotalWork(shares: seq<Share>): nat {
    if shares == [] then 0 else TotalWork(shares[..|shares| - 1]) + shares[|shares| - 1].difficulty
  }

  /** What share `i` is credited: its own work, or what the newer shares have left of the request. */
  ghost function CreditAt(shares: seq<Share>, requested: nat, i: nat): nat
    requires i < |shares|
  {
    Min(shares[i].difficulty, requested - Min(requested, TotalWork(shares[..i])))
  }

  /** What the shares of one miner are credited together. */
  ghost function CreditedTo(shares: seq<Share>, requested: nat, m: MinerId): nat {
    if shares == [] then 0
    else
      var last := |shares| - 1;
      CreditedTo(shares[..last], requested, m) +
      if shares[last].miner == m then CreditAt(shares, requested, last) else 0
  }

  /** The payout keys shown by the shares of one miner. */
  ghost function PayoutFor(shares: seq<Share>, m: MinerId): Option<PayoutKeys> {
    if shares == [] then None
    else
      var last := |shares| - 1;
      if shares[last].miner == m && shares[last].payout.Some? then shares[last].payout
      else PayoutFor(shares[..last], m)
  }

  ghost function MinersOf(shares: seq<Share>): set<MinerId> {
    set s | s in shares :: s.miner
  }

  /** Payout keys are bound to their miner, and one miner shows one pair of keys. */
  ghost predicate PayoutsAgree(minerOf: PayoutKeys -> MinerId, shares: seq<Share>) {
    && (forall s | s in shares && s.payout.Some? :: s.version == 2 && s.miner == minerOf(s.payout.value))
    && (forall s, t | s in shares && t in shares && s.miner == t.miner && s.payout.Some? && t.payout.Some? ::
          s.payout == t.payout)
  }

  ghost function RowFor(shares: seq<Share>, requested: nat, m: MinerId): MinerWork {
    MinerWork(m, CreditedTo(shares, requested, m), PayoutFor(shares, m))
  }

  ghost function RowsFor(shares: seq<Share>, requested: nat, miners: seq<MinerId>): (rows: seq<MinerWork>)
    ensures |rows| == |miners|
    ensures forall i | 0 <= i < |miners| :: rows[i] == RowFor(shares, requested, miners[i])
  {
    seq(|miners|, i requires 0 <= i < |miners| => RowFor(shares, requested, miners[i]))
  }

  /** The window that credits exactly `shares`. */
  ghost function WindowOf(shares: seq<Share>, requested: nat): Window {
    Window(requested, Min(requested, TotalWork(shares)), |shares|, requested <= TotalWork(shares),
           RowsFor(shares, requested, Keys(MinersOf(shares))))
  }

  // ---- Which shares ----------------------------------------------------------------------------

  /** The shares met going down from `p` until `remaining` work is covered.  Only shares that may earn
      are walked over: on a configured chain, those with validated ancestry. */
  ghost function Walk(rules: Rules, tree: Tree, p: ShareId, remaining: nat): Outcome<seq<Share>>
    decreases remaining
  {
    if remaining == 0 || p == NO_SHARE then Value([])
    else if p !in tree || (rules.policy.Some? && !tree[p].validated) || tree[p].share.difficulty == 0
    then Thrown
    else
      var s := tree[p].share;
      var rest := Walk(rules, tree, s.parent, remaining - Min(s.difficulty, remaining));
      if rest.Thrown? then Thrown else Value([s] + rest.value)
  }

  ghost function Build(rules: Rules, tree: Tree, p: ShareId, requested: nat): Outcome<Window> {
    if requested == 0 then Thrown
    else
      var walk := Walk(rules, tree, p, requested);
      if walk.Thrown? || !PayoutsAgree(rules.minerOf, walk.value) then Thrown
      else Value(WindowOf(walk.value, requested))
  }

  // ---- The accounting loop ---------------------------------------------------------------------

  /** The running map holds what the shares so far have earned. */
  ghost predicate Tallied(credited: map<MinerId, Credit>, shares: seq<Share>, requested: nat) {
    && credited.Keys == MinersOf(shares)
    && forall m | m in credited :: TalliedRow(credited[m], shares, requested, m)
  }

  lemma {:induction false} PayoutForMember(shares: seq<Share>, m: MinerId)
    ensures PayoutFor(shares, m).Some? ==>
      exists s :: s in shares && s.miner == m && s.payout == PayoutFor(shares, m)
    ensures PayoutFor(shares, m).None? ==> forall s | s in shares && s.miner == m :: s.payout.None?
  {
    if shares != [] {
      var last := |shares| - 1;
      PayoutForMember(shares[..last], m);
      assert shares == shares[..last] + [shares[last]];
    }
  }

  lemma AppendShare(shares: seq<Share>, s: Share, requested: nat, m: MinerId)
    ensures var more := shares + [s];
      var credit := Min(s.difficulty, requested - Min(requested, TotalWork(shares)));
      && TotalWork(more) == TotalWork(shares) + s.difficulty
      && MinersOf(more) == MinersOf(shares) + {s.miner}
      && CreditedTo(more, requested, m) == CreditedTo(shares, requested, m) + (if s.miner == m then credit else 0)
      && PayoutFor(more, m) == if s.miner == m && s.payout.Some? then s.payout else PayoutFor(shares, m)
  {
    var more := shares + [s];
    assert more[..|more| - 1] == shares && more[|more| - 1] == s;
  }

  lemma {:induction false} UntouchedMiner(shares: seq<Share>, requested: nat, m: MinerId)
    requires m !in MinersOf(shares)
    ensures CreditedTo(shares, requested, m) == 0 && PayoutFor(shares, m) == None
  {
    if shares != [] {
      var last := |shares| - 1;
      assert shares[last] in shares && shares[last].miner in MinersOf(shares);
      assert forall s | s in shares[..last] :: s in shares && s.miner in MinersOf(shares);
      UntouchedMiner(shares[..last], requested, m);
    }
  }

  /** The payout keys after one more share, unless they conflict. */
  ghost predicate MergeAllowed(minerOf: PayoutKeys -> MinerId, sofar: Option<PayoutKeys>, s: Share) {
    s.payout.Some? ==>
      && s.version == 2 && s.miner == minerOf(s.payout.value)
      && (sofar.None? || sofar == s.payout)
  }

  lemma MergeIsAgreement(minerOf: PayoutKeys -> MinerId, shares: seq<Share>, s: Share)
    requires PayoutsAgree(minerOf, shares)
    ensures PayoutsAgree(minerOf, shares + [s]) <==> MergeAllowed(minerOf, PayoutFor(shares, s.miner), s)
  {
    var more := shares + [s];
    PayoutForMember(shares, s.miner);
    assert s in more && forall t | t in shares :: t in more;
  }

  ghost predicate TalliedRow(row: Credit, shares: seq<Share>, requested: nat, m: MinerId) {
    row.work > 0 && row == Credit(CreditedTo(shares, requested, m), PayoutFor(shares, m))
  }

  lemma RowNext(row: Credit, shares: seq<Share>, requested: nat, s: Share)
    requires s.difficulty > 0 && TotalWork(shares) < requested
    requires row == Credit(CreditedTo(shares, requested, s.miner), PayoutFor(shares, s.miner))
    ensures TalliedRow(
      Credit(row.work + Min(s.difficulty, requested - TotalWork(shares)),
             if s.payout.Some? then s.payout else row.payout),
      shares + [s], requested, s.miner)
  {
    AppendShare(shares, s, requested, s.miner);
  }

  lemma TallyNext(credited: map<MinerId, Credit>, shares: seq<Share>, requested: nat, s: Share, row: Credit)
    requires Tallied(credited, shares, requested)
    requires s.difficulty > 0 && TotalWork(shares) < requested
    requires row == if s.miner in credited then credited[s.miner] else Credit(0, None)
    ensures row.payout == PayoutFor(shares, s.miner)
    ensures Tallied(
      credited[s.miner := Credit(row.work + Min(s.difficulty, requested - TotalWork(shares)),
                                 if s.payout.Some? then s.payout else row.payout)],
      shares + [s], requested)
  {
    hide CreditedTo, PayoutFor, MinersOf;
    if s.miner !in credited {
      UntouchedMiner(shares, requested, s.miner);
    } else {
      assert TalliedRow(credited[s.miner], shares, requested, s.miner);
    }
    RowNext(row, shares, requested, s);
    AppendShare(shares, s, requested, s.miner);
    forall m | m in credited && m != s.miner
      ensures TalliedRow(credited[m], shares + [s], requested, m)
    {
      assert TalliedRow(credited[m], shares, requested, m);
      AppendShare(shares, s, requested, m);
    }
    hide TalliedRow;
  }

  lemma AgreePrefix(minerOf: PayoutKeys -> MinerId, shares: seq<Share>, more: seq<Share>)
    requires PayoutsAgree(minerOf, shares + more)
    ensures PayoutsAgree(minerOf, shares)
  {
    assert forall s | s in shares :: s in shares + more;
  }

  /** What the walk still has to find after `done`. */
  ghost function After(done: seq<Share>, rest: Outcome<seq<Share>>): Outcome<seq<Share>> {
    if rest.Thrown? then Thrown else Value(done + rest.value)
  }

  lemma AfterNext(done: seq<Share>, s: Share, rest: Outcome<seq<Share>>)
    ensures After(done, After([s], rest)) == After(done + [s], rest)
  {
    if rest.Value? {
      assert done + ([s] + rest.value) == (done + [s]) + rest.value;
    }
  }

  lemma WalkStep(rules: Rules, tree: Tree, p: ShareId, remaining: nat, done: seq<Share>)
    requires p != NO_SHARE && remaining != 0 && p in tree
    requires !(rules.policy.Some? && !tree[p].validated) && tree[p].share.difficulty != 0
    ensures var s := tree[p].share;
      After(done, Walk(rules, tree, p, remaining)) ==
      After(done + [s], Walk(rules, tree, s.parent, remaining - Min(s.difficulty, remaining)))
  {
    var s := tree[p].share;
    AfterNext(done, s, Walk(rules, tree, s.parent, remaining - Min(s.difficulty, remaining)));
  }

  lemma WalkEnds(rules: Rules, tree: Tree, p: ShareId, remaining: nat, done: seq<Share>)
    requires remaining == 0 || p == NO_SHARE
    ensures After(done, Walk(rules, tree, p, remaining)) == Value(done)
  {
    assert done + [] == done;
  }

  /** Emit one row per miner, in identifier order, skipping empty ones. */
  method Rows(credited: map<MinerId, Credit>, ghost shares: seq<Share>, ghost requested: nat)
    returns (rows: seq<MinerWork>)
    requires Tallied(credited, shares, requested)
    ensures rows == RowsFor(shares, requested, Keys(MinersOf(shares)))
  {
    rows := [];
    var miners := Keys(credited.Keys);
    hide Keys, CreditedTo, PayoutFor, MinersOf;
    for i := 0 to |miners|
      invariant |rows| == i
      invariant forall j | 0 <= j < i :: rows[j] == RowFor(shares, requested, miners[j])
    {
      assert miners[i] in miners && TalliedRow(credited[miners[i]], shares, requested, miners[i]);
      var row := credited[miners[i]];
      if row.work != 0 {
        rows := rows + [MinerWork(miners[i], row.work, row.payout)];
      }
    }
  }

  /** The loop has walked over `done`, credited it, and `current` is the next share to look at. */
  ghost predicate InProgress(
    rules: Rules, tree: Tree, parent: ShareId, requested: nat,
    current: ShareId, remaining: nat, credited: map<MinerId, Credit>, done: seq<Share>)
  {
    && remaining == requested - Min(requested, TotalWork(done))
    && After(done, Walk(rules, tree, current, remaining)) == Walk(rules, tree, parent, requested)
    && Tallied(credited, done, requested) && PayoutsAgree(rules.minerOf, done)
  }

  lemma Begin(rules: Rules, tree: Tree, parent: ShareId, requested: nat)
    ensures InProgress(rules, tree, parent, requested, parent, requested, map[], [])
  {
    WalkStarts(Walk(rules, tree, parent, requested));
  }

  function AddCredit(credited: map<MinerId, Credit>, s: Share, credit: nat): map<MinerId, Credit> {
    var row := RowOf(credited, s.miner);
    credited[s.miner := Credit(row.work + credit, if s.payout.Some? then s.payout else row.payout)]
  }

  /** One share: it is credited, unless its payout keys conflict. */
  lemma Advance(
    rules: Rules, tree: Tree, parent: ShareId, requested: nat,
    current: ShareId, remaining: nat, credited: map<MinerId, Credit>, done: seq<Share>)
    requires InProgress(rules, tree, parent, requested, current, remaining, credited, done)
    requires requested > 0 && remaining > 0 && current != NO_SHARE && current in tree
    requires !(rules.policy.Some? && !tree[current].validated) && tree[current].share.difficulty > 0
    ensures var s := tree[current].share;
      var credit := Min(s.difficulty, remaining);
      if MergeAllowed(rules.minerOf, RowOf(credited, s.miner).payout, s)
      then InProgress(rules, tree, parent, requested, s.parent, remaining - credit,
                      AddCredit(credited, s, credit), done + [s])
      else Build(rules, tree, parent, requested) == Thrown
  {
    hide Walk, Tallied, PayoutsAgree, CreditedTo, PayoutFor, RowsFor, MinersOf, Keys;
    var s := tree[current].share;
    WalkStep(rules, tree, current, remaining, done);
    TallyNext(credited, done, requested, s, RowOf(credited, s.miner));
    MergeIsAgreement(rules.minerOf, done, s);
    AppendShare(done, s, requested, s.miner);
    if !PayoutsAgree(rules.minerOf, done + [s]) {
      WalkDisagrees(rules, Walk(rules, tree, parent, requested), done + [s],
                    Walk(rules, tree, s.parent, remaining - Min(s.difficulty, remaining)));
    }
  }

  lemma Blocked(
    rules: Rules, tree: Tree, parent: ShareId, requested: nat,
    current: ShareId, remaining: nat, credited: map<MinerId, Credit>, done: seq<Share>)
    requires InProgress(rules, tree, parent, requested, current, remaining, credited, done)
    requires remaining > 0 && current != NO_SHARE
    requires current !in tree || (rules.policy.Some? && !tree[current].validated) || tree[current].share.difficulty == 0
    ensures Build(rules, tree, parent, requested) == Thrown
  {
    assert Walk(rules, tree, current, remaining) == Thrown;
  }

  lemma Finish(
    rules: Rules, tree: Tree, parent: ShareId, requested: nat,
    current: ShareId, remaining: nat, credited: map<MinerId, Credit>, done: seq<Share>)
    requires InProgress(rules, tree, parent, requested, current, remaining, credited, done)
    requires requested > 0 && (remaining == 0 || current == NO_SHARE)
    ensures Tallied(credited, done, requested)
    ensures Build(rules, tree, parent, requested) == Value(WindowOf(done, requested))
    ensures requested - remaining == Min(requested, TotalWork(done))
  {
    WalkEnds(rules, tree, current, remaining, done);
  }

  /** Credit one share to its miner and merge the payout identity, unless that conflicts. */
  method CreditShare(minerOf: PayoutKeys -> MinerId, credited: map<MinerId, Credit>, share: Share, credit: nat)
    returns (r: Option<map<MinerId, Credit>>)
    ensures r == if MergeAllowed(minerOf, RowOf(credited, share.miner).payout, share)
      then Some(AddCredit(credited, share, credit)) else None
  {
    var row := RowOf(credited, share.miner).(work := RowOf(credited, share.miner).work + credit);
    if share.payout.Some? {
      if share.version != 2 || share.miner != minerOf(share.payout.value) {
        return None;
      }
      if row.payout.Some? && row.payout != share.payout {
        return None;
      }
      row := row.(payout := share.payout);
    }
    return Some(credited[share.miner := row]);
  }

  /** The walk from `parent`, crediting as it goes; `done` are the shares walked over. */
  method CreditBranch(rules: Rules, tree: Tree, parent: ShareId, requested: nat)
    returns (ok: bool, credited: map<MinerId, Credit>, remaining: nat, included: nat, ghost done: seq<Share>)
    requires requested > 0
    ensures !ok ==> Build(rules, tree, parent, requested) == Thrown
    ensures ok ==>
      && Tallied(credited, done, requested) && included == |done|
      && requested - remaining == Min(requested, TotalWork(done))
      && Build(rules, tree, parent, requested) == Value(WindowOf(done, requested))
  {
    hide InProgress, Build, Tallied, WindowOf, TotalWork, AddCredit, MergeAllowed, RowOf;
    ok, remaining, included, credited, done := false, requested, 0, map[], [];
    var current := parent;
    Begin(rules, tree, parent, requested);
    while current != NO_SHARE && remaining != 0
      invariant included == |done|
      invariant InProgress(rules, tree, parent, requested, current, remaining, credited, done)
      decreases remaining
    {
      if current !in tree || (rules.policy.Some? && !tree[current].validated) || tree[current].share.difficulty == 0 {
        Blocked(rules, tree, parent, requested, current, remaining, credited, done);
        return;
      }
      var share := tree[current].share;
      var credit := Min(share.difficulty, remaining);
      Advance(rules, tree, parent, requested, current, remaining, credited, done);
      var next := CreditShare(rules.minerOf, credited, share, credit);
      if next.None? {
        return;
      }
      credited, remaining, included, done := next.value, remaining - credit, included + 1, done + [share];
      current := share.parent;
    }
    Finish(rules, tree, parent, requested, current, remaining, credited, done);
    ok := true;
  }

  method BuildPplnsWindowAtParent(rules: Rules, tree: Tree, parent: ShareId, requested: nat)
    returns (r: Outcome<Window>)
    ensures r == Build(rules, tree, parent, requested)
  {
    if requested == 0 {
      return Thrown;
    }
    hide Build, Tallied, RowsFor, Keys, MinersOf;
    var ok, credited, remaining, included, done := CreditBranch(rules, tree, parent, requested);
    if !ok {
      return Thrown;
    }
    var rows := Rows(credited, done, requested);
    return Value(Window(requested, requested - remaining, included, remaining == 0, rows));
  }

  lemma WalkStarts(walk: Outcome<seq<Share>>)
    ensures After([], walk) == walk
  {
    assert walk.Value? ==> [] + walk.value == walk.value;
  }

  lemma WalkDisagrees(rules: Rules, walk: Outcome<seq<Share>>, done: seq<Share>, rest: Outcome<seq<Share>>)
    requires walk == After(done, rest) && !PayoutsAgree(rules.minerOf, done)
    ensures walk.Thrown? || !PayoutsAgree(rules.minerOf, walk.value)
  {
    if walk.Value? && PayoutsAgree(rules.minerOf, walk.value) {
      AgreePrefix(rules.minerOf, done, rest.value);
    }
  }

  // ---- The sidechain window --------------------------------------------------------------------

  datatype WindowParams = WindowParams(windowShares: U64, multiplier: U64)

  ghost predicate ParamsAllowed(params: WindowParams, network: Difficulty) {
    0 < params.windowShares <= MAX_WINDOW_SHARES && params.multiplier > 0 && network > 0
  }

  ghost predicate MayEarn(rules: Rules, tree: Tree, p: ShareId) {
    p in tree && (rules.policy.Some? ==> tree[p].validated) && tree[p].share.difficulty > 0
  }

  /** The work of the newest `n` shares from `p`. */
  ghost function RecentWork(rules: Rules, tree: Tree, p: ShareId, n: nat): Outcome<nat>
    decreases n
  {
    if n == 0 then Value(0)
    else if !MayEarn(rules, tree, p) then Thrown
    else
      var s := tree[p].share;
      if IsRoot(s) then Value(s.difficulty)
      else if s.parent !in tree then Thrown
      else
        var rest := RecentWork(rules, tree, s.parent, n - 1);
        if rest.Thrown? then Thrown else Value(s.difficulty + rest.value)
  }

  ghost function SidechainWindow(
    rules: Rules, tree: Tree, p: ShareId, params: WindowParams, network: Difficulty): Outcome<Window>
  {
    if !ParamsAllowed(params, network) || (p != NO_SHARE && p !in tree) then Thrown
    else if p == NO_SHARE then Value(EMPTY_WINDOW)
    else
      var recent := RecentWork(rules, tree, p, params.windowShares);
      if recent.Thrown? then Thrown
      else
        var window := Build(rules, tree, p, Min(recent.value, network * params.multiplier));
        if window.Thrown? || !window.value.complete || window.value.included > params.windowShares
        then Thrown else window
  }

  /** The first pass: sum the newest shares. */
  method SumRecentWork(rules: Rules, tree: Tree, parent: ShareId, shares: nat) returns (r: Outcome<nat>)
    requires parent != NO_SHARE && shares > 0
    ensures r == RecentWork(rules, tree, parent, shares)
  {
    var recent: nat := 0;
    var counted, current := 0, parent;
    ghost var goal := RecentWork(rules, tree, parent, shares);
    while counted < shares
      invariant counted <= shares
      invariant goal == Plus(recent, RecentWork(rules, tree, current, shares - counted))
    {
      if current !in tree || (rules.policy.Some? && !tree[current].validated) || tree[current].share.difficulty == 0 {
        return Thrown;
      }
      var share := tree[current].share;
      recent := recent + share.difficulty;
      counted := counted + 1;
      if IsRoot(share) {
        return Value(recent);
      }
      if share.parent !in tree {
        return Thrown;
      }
      current := share.parent;
    }
    return Value(recent);
  }

  ghost function Plus(work: nat, rest: Outcome<nat>): Outcome<nat> {
    if rest.Thrown? then Thrown else Value(work + rest.value)
  }

  method BuildSidechainPplnsWindowAtParent(
    rules: Rules, tree: Tree, parent: ShareId, params: WindowParams, network: Difficulty)
    returns (r: Outcome<Window>)
    ensures r == SidechainWindow(rules, tree, parent, params, network)
  {
    if params.windowShares == 0 || params.windowShares > MAX_WINDOW_SHARES
       || params.multiplier == 0 || network == 0 || (parent != NO_SHARE && parent !in tree) {
      return Thrown;
    }
    if parent == NO_SHARE {
      return Value(EMPTY_WINDOW);
    }
    hide Build, RecentWork;
    var recent := SumRecentWork(rules, tree, parent, params.windowShares);
    if recent.Thrown? {
      return Thrown;
    }
    var requested := Min(recent.value, network * params.multiplier);
    r := BuildPplnsWindowAtParent(rules, tree, parent, requested);
    if r.Value? && (!r.value.complete || r.value.included > params.windowShares) {
      return Thrown;
    }
  }

  // ---- What the window is, in terms of the branch ----------------------------------------------

  /** The shortest prefix that covers `requested` work, or all of it. */
  ghost function Covering(shares: seq<Share>, requested: nat): seq<Share> {
    if requested == 0 || shares == [] then []
    else [shares[0]] + Covering(shares[1..], requested - Min(shares[0].difficulty, requested))
  }

  lemma {:induction false} TotalWorkFirst(shares: seq<Share>)
    requires shares != []
    ensures TotalWork(shares) == shares[0].difficulty + TotalWork(shares[1..])
  {
    var last := |shares| - 1;
    if last > 0 {
      TotalWorkFirst(shares[..last]);
      assert shares[..last][1..] == shares[1..][..last - 1];
    }
  }

  /** The covering prefix reaches the request, unless it is everything, and no shorter one does. */
  lemma {:induction false} CoveringExact(shares: seq<Share>, requested: nat)
    ensures var taken := Covering(shares, requested);
      && |taken| <= |shares| && taken == shares[..|taken|]
      && Min(requested, TotalWork(taken)) == Min(requested, TotalWork(shares))
      && (taken != [] ==> TotalWork(taken[..|taken| - 1]) < requested)
  {
    if requested > 0 && shares != [] {
      var rest := requested - Min(shares[0].difficulty, requested);
      var taken, tail := Covering(shares, requested), Covering(shares[1..], rest);
      CoveringExact(shares[1..], rest);
      assert taken[1..] == tail && taken == shares[..|taken|];
      TotalWorkFirst(shares);
      TotalWorkFirst(taken);
      if |taken| > 1 {
        var front := taken[..|taken| - 1];
        assert front[1..] == tail[..|tail| - 1];
        TotalWorkFirst(front);
      }
    }
  }

  lemma {:induction false} TotalWorkMonotone(shares: seq<Share>, i: nat, j: nat)
    requires i <= j <= |shares|
    ensures TotalWork(shares[..i]) <= TotalWork(shares[..j])
    ensures i < j ==> TotalWork(shares[..i]) + shares[i].difficulty <= TotalWork(shares[..j])
  {
    if i < j {
      assert shares[..j][..j - 1] == shares[..j - 1];
      TotalWorkMonotone(shares, i, j - 1);
    }
  }

  /** Every included share but the oldest is credited in full, and older shares not at all. */
  lemma OnlyOldestPartial(shares: seq<Share>, requested: nat, i: nat)
    requires i < |shares|
    ensures var included := |Covering(shares, requested)|;
      && (i + 1 < included ==> CreditAt(shares, requested, i) == shares[i].difficulty)
      && (i >= included ==> CreditAt(shares, requested, i) == 0)
  {
    var taken := Covering(shares, requested);
    CoveringExact(shares, requested);
    if i + 1 < |taken| {
      assert taken[..|taken| - 1] == shares[..|taken| - 1];
      TotalWorkMonotone(shares, i, |taken| - 1);
    } else if i >= |taken| {
      TotalWorkMonotone(shares, |taken|, i);
      assert shares[..|shares|] == shares;
      TotalWorkMonotone(shares, |taken|, |shares|);
      assert TotalWork(taken) >= requested || TotalWork(taken) == TotalWork(shares);
      TotalWorkMonotone(shares, i, |shares|);
    }
  }

  ghost function SumCredits(shares: seq<Share>, requested: nat, miners: seq<MinerId>): nat {
    if miners == [] then 0
    else SumCredits(shares, requested, miners[..|miners| - 1]) + CreditedTo(shares, requested, miners[|miners| - 1])
  }

  lemma {:induction false} CreditsAppend(shares: seq<Share>, s: Share, requested: nat, miners: seq<MinerId>)
    requires Distinct(miners)
    ensures SumCredits(shares + [s], requested, miners) == SumCredits(shares, requested, miners) +
      if s.miner in miners then Min(s.difficulty, requested - Min(requested, TotalWork(shares))) else 0
  {
    if miners != [] {
      var last := |miners| - 1;
      CreditsAppend(shares, s, requested, miners[..last]);
      AppendShare(shares, s, requested, miners[last]);
      assert miners == miners[..last] + [miners[last]];
    }
  }

  lemma {:induction false} NoShareNoCredit(requested: nat, miners: seq<MinerId>)
    ensures SumCredits([], requested, miners) == 0
  {
    if miners != [] {
      NoShareNoCredit(requested, miners[..|miners| - 1]);
    }
  }

  /** Conservation: the credits of all miners add up to the covered work. */
  lemma {:induction false} CreditsAddUp(shares: seq<Share>, requested: nat, miners: seq<MinerId>)
    requires Distinct(miners) && forall s | s in shares :: s.miner in miners
    ensures SumCredits(shares, requested, miners) == Min(requested, TotalWork(shares))
  {
    if shares == [] {
      NoShareNoCredit(requested, miners);
    } else {
      var last := |shares| - 1;
      var front := shares[..last];
      assert shares == front + [shares[last]];
      CreditsAddUp(front, requested, miners);
      CreditsAppend(front, shares[last], requested, miners);
    }
  }

  lemma {:induction false} RowsAddUp(shares: seq<Share>, requested: nat, miners: seq<MinerId>)
    ensures SumRows(RowsFor(shares, requested, miners)) == SumCredits(shares, requested, miners)
  {
    if miners != [] {
      var last := |miners| - 1;
      RowsAddUp(shares, requested, miners[..last]);
      assert RowsFor(shares, requested, miners)[..last] == RowsFor(shares, requested, miners[..last]);
    }
  }

  lemma WindowAddsUp(shares: seq<Share>, requested: nat)
    ensures SumRows(WindowOf(shares, requested).miners) == WindowOf(shares, requested).covered
  {
    var miners := Keys(MinersOf(shares));
    RowsAddUp(shares, requested, miners);
    CreditsAddUp(shares, requested, miners);
  }

  /** A share that may earn has ancestors that may. */
  lemma EarnersClosed(rules: Rules, trust: Trust, tree: Tree, p: ShareId)
    requires TreeOk(rules, tree) && TrustOk(rules, trust, tree) && p in tree
    requires rules.policy.Some? ==> tree[p].validated
    ensures MayEarn(rules, tree, p)
    ensures var s := tree[p].share;
      IsRoot(s) || (MayEarn(rules, tree, s.parent) && tree[s.parent].share.height < s.height)
  {
    assert NodeOk(rules, tree, p) && NodeTrusted(rules, trust, tree, p);
    var s := tree[p].share;
    if !IsRoot(s) {
      assert NodeOk(rules, tree, s.parent);
    }
  }

  lemma WalkUnfold(rules: Rules, tree: Tree, p: ShareId, remaining: nat, older: seq<Share>)
    requires MayEarn(rules, tree, p) && p != NO_SHARE
    requires var s := tree[p].share;
      var rest := remaining - Min(s.difficulty, remaining);
      Walk(rules, tree, s.parent, rest) == Value(Covering(older, rest))
    ensures Walk(rules, tree, p, remaining) == Value(Covering([tree[p].share] + older, remaining))
  {
    assert ([tree[p].share] + older)[1..] == older;
  }

  lemma WalkNothing(rules: Rules, tree: Tree, remaining: nat)
    ensures Walk(rules, tree, NO_SHARE, remaining) == Value(Covering([], remaining))
  {
  }

  /** The walk is the covering prefix of the branch. */
  lemma {:induction false} WalkIsCovering(rules: Rules, trust: Trust, tree: Tree, p: ShareId, remaining: nat)
    requires TreeOk(rules, tree) && TrustOk(rules, trust, tree) && p in tree && p != NO_SHARE
    requires rules.policy.Some? ==> tree[p].validated
    ensures Walk(rules, tree, p, remaining) == Value(Covering(Branch(tree, p), remaining))
    decreases tree[p].share.height
  {
    hide TreeOk, TrustOk, Branch, Walk, Covering;
    EarnersClosed(rules, trust, tree, p);
    BranchUnfold(rules, tree, p);
    var s := tree[p].share;
    var rest := remaining - Min(s.difficulty, remaining);
    if IsRoot(s) {
      WalkNothing(rules, tree, rest);
      WalkUnfold(rules, tree, p, remaining, []);
    } else {
      WalkIsCovering(rules, trust, tree, s.parent, rest);
      WalkUnfold(rules, tree, p, remaining, Branch(tree, s.parent));
    }
  }

  /** The newest `n` shares, or all of them. */
  ghost function Newest(shares: seq<Share>, n: nat): seq<Share> {
    shares[..Min(n, |shares|)]
  }

  lemma NewestUnfold(s: Share, older: seq<Share>, n: nat)
    ensures TotalWork(Newest([s] + older, n + 1)) == s.difficulty + TotalWork(Newest(older, n))
    ensures TotalWork(Newest(older, 0)) == 0 && TotalWork(Newest([], n)) == 0
  {
    var newest := Newest([s] + older, n + 1);
    TotalWorkFirst(newest);
    assert newest[1..] == Newest(older, n);
  }

  lemma RecentUnfold(rules: Rules, tree: Tree, p: ShareId, n: nat, older: seq<Share>)
    requires MayEarn(rules, tree, p) && p != NO_SHARE && n > 0
    requires var s := tree[p].share;
      if IsRoot(s) then older == []
      else s.parent in tree && (n > 1 ==> RecentWork(rules, tree, s.parent, n - 1) == Value(TotalWork(Newest(older, n - 1))))
    ensures RecentWork(rules, tree, p, n) == Value(TotalWork(Newest([tree[p].share] + older, n)))
    ensures TotalWork(Newest([tree[p].share] + older, n)) > 0
  {
    hide TotalWork, Newest;
    NewestUnfold(tree[p].share, older, n - 1);
  }

  lemma {:induction false} RecentIsBranch(rules: Rules, trust: Trust, tree: Tree, p: ShareId, n: nat)
    requires TreeOk(rules, tree) && TrustOk(rules, trust, tree) && p in tree && p != NO_SHARE && n > 0
    requires rules.policy.Some? ==> tree[p].validated
    ensures RecentWork(rules, tree, p, n) == Value(TotalWork(Newest(Branch(tree, p), n)))
    ensures TotalWork(Newest(Branch(tree, p), n)) > 0
    decreases n
  {
    hide TreeOk, TrustOk, Branch, TotalWork, Newest, RecentWork;
    EarnersClosed(rules, trust, tree, p);
    BranchUnfold(rules, tree, p);
    var s := tree[p].share;
    if !IsRoot(s) && n > 1 {
      RecentIsBranch(rules, trust, tree, s.parent, n - 1);
    }
    RecentUnfold(rules, tree, p, n, if IsRoot(s) then [] else Branch(tree, s.parent));
  }

  /** A branch adds up to the cumulative work of its newest share, and has one share per height. */
  lemma {:induction false} BranchWork(rules: Rules, tree: Tree, p: ShareId)
    requires TreeOk(rules, tree) && p in tree && p != NO_SHARE
    ensures TotalWork(Branch(tree, p)) == tree[p].work && |Branch(tree, p)| == tree[p].share.height + 1
    decreases tree[p].share.height
  {
    assert NodeOk(rules, tree, p);
    BranchUnfold(rules, tree, p);
    TotalWorkFirst(Branch(tree, p));
    if !IsRoot(tree[p].share) {
      BranchWork(rules, tree, tree[p].share.parent);
      assert Branch(tree, p)[1..] == Branch(tree, tree[p].share.parent);
    } else {
      assert Branch(tree, p)[1..] == [];
    }
  }

  /** Two of the shares show different payout keys for one miner. */
  ghost predicate PayoutsConflict(shares: seq<Share>) {
    exists s, t :: s in shares && t in shares && ConflictBetween(s, t)
  }

  ghost predicate ConflictBetween(s: Share, t: Share) {
    s.miner == t.miner && s.payout.Some? && t.payout.Some? && s.payout != t.payout
  }

  /** Two shares show different payout keys that name one miner. */
  ghost predicate MinersCollide(rules: Rules, s: Share, t: Share) {
    && Encodable(s, rules.minerOf) && Encodable(t, rules.minerOf)
    && s.payout.Some? && t.payout.Some? && s.payout.value != t.payout.value
    && rules.minerOf(s.payout.value) == rules.minerOf(t.payout.value)
  }

  lemma {:induction false} BranchEncodable(rules: Rules, tree: Tree, p: ShareId)
    requires TreeOk(rules, tree) && p in tree && p != NO_SHARE
    ensures forall s | s in Branch(tree, p) :: Encodable(s, rules.minerOf)
    decreases tree[p].share.height
  {
    assert NodeOk(rules, tree, p);
    BranchUnfold(rules, tree, p);
    if !IsRoot(tree[p].share) {
      BranchEncodable(rules, tree, tree[p].share.parent);
    }
  }

  /** On a branch, keys are bound to their miners, so payouts disagree only by conflict. */
  lemma BranchPayoutsAgree(rules: Rules, tree: Tree, p: ShareId, n: nat)
    requires TreeOk(rules, tree) && p in tree && p != NO_SHARE && n <= |Branch(tree, p)|
    ensures PayoutsAgree(rules.minerOf, Branch(tree, p)[..n]) <==> !PayoutsConflict(Branch(tree, p)[..n])
  {
    BranchEncodable(rules, tree, p);
    hide TreeOk, Branch, Encodable;
    var shares := Branch(tree, p)[..n];
    assert forall s | s in shares :: s in Branch(tree, p);
    EncodableAgree(rules, shares);
  }

  lemma EncodableAgree(rules: Rules, shares: seq<Share>)
    requires forall s | s in shares :: Encodable(s, rules.minerOf)
    ensures PayoutsAgree(rules.minerOf, shares) <==> !PayoutsConflict(shares)
    ensures forall s, t | s in shares && t in shares && ConflictBetween(s, t) :: MinersCollide(rules, s, t)
  {
    if !PayoutsConflict(shares) {
      forall s, t | s in shares && t in shares && s.miner == t.miner && s.payout.Some? && t.payout.Some?
        ensures s.payout == t.payout
      {
        assert !ConflictBetween(s, t);
      }
    }
  }

  /** What an exact window says about the branch it was built from. */
  ghost predicate ExactWindow(branch: seq<Share>, work: nat, requested: nat, w: Window) {
    && w == WindowOf(Covering(branch, requested), requested)
    && w.covered == Min(requested, work) && (w.complete <==> requested <= work)
    && SumRows(w.miners) == w.covered
    && w.included <= |branch| && Covering(branch, requested) == branch[..w.included]
  }

  lemma CoveringIsExact(branch: seq<Share>, requested: nat)
    ensures ExactWindow(branch, TotalWork(branch), requested, WindowOf(Covering(branch, requested), requested))
  {
    CoveringExact(branch, requested);
    WindowAddsUp(Covering(branch, requested), requested);
    hide Covering, RowsFor;
  }

  /** The share may earn, and the shares that would be credited do not conflict. */
  ghost predicate WindowExists(rules: Rules, tree: Tree, p: ShareId, requested: nat)
    requires p in tree
  {
    && (rules.policy.Some? ==> tree[p].validated)
    && !PayoutsConflict(Covering(Branch(tree, p), requested))
  }

  lemma TreeWindowExact(rules: Rules, tree: Tree, p: ShareId, requested: nat)
    requires TreeOk(rules, tree) && TrustOk(rules, ConsistentRecords(), tree)
    requires p in tree && p != NO_SHARE && requested > 0
    ensures Build(rules, tree, p, requested).Value? <==> WindowExists(rules, tree, p, requested)
    ensures Build(rules, tree, p, requested).Value? ==>
      ExactWindow(Branch(tree, p), tree[p].work, requested, Build(rules, tree, p, requested).value)
  {
    hide TreeOk, TrustOk, Branch, Covering, RowsFor, PayoutsAgree, PayoutsConflict, WindowOf, ExactWindow;
    if rules.policy.Some? && !tree[p].validated {
      assert Walk(rules, tree, p, requested) == Thrown;
    } else {
      var branch := Branch(tree, p);
      WalkIsCovering(rules, ConsistentRecords(), tree, p, requested);
      CoveringExact(branch, requested);
      BranchPayoutsAgree(rules, tree, p, |Covering(branch, requested)|);
      BranchWork(rules, tree, p);
      CoveringIsExact(branch, requested);
    }
  }

  /** On every reachable chain the window of a share exists exactly when the share may earn and no two
      credited shares show different payout keys for one miner.  Then it is exact: it covers the request
      or the whole cumulative work, its rows add up to what it covers, and it credits a prefix of the
      branch in full except for the oldest included share. */
  lemma WindowExact(rules: Rules, c: Chain, p: ShareId, requested: nat)
    requires Reachable(rules, ConsistentRecords(), c)
    requires p in c.tree && p != NO_SHARE && requested > 0
    ensures Build(rules, c.tree, p, requested).Value? <==> WindowExists(rules, c.tree, p, requested)
    ensures Build(rules, c.tree, p, requested).Value? ==>
      ExactWindow(Branch(c.tree, p), c.tree[p].work, requested, Build(rules, c.tree, p, requested).value)
    ensures forall i | 0 <= i < |Branch(c.tree, p)| ::
      var included := |Covering(Branch(c.tree, p), requested)|;
      && (i + 1 < included ==> CreditAt(Branch(c.tree, p), requested, i) == Branch(c.tree, p)[i].difficulty)
      && (i >= included ==> CreditAt(Branch(c.tree, p), requested, i) == 0)
  {
    hide Reachable, Inv, TreeOk, TrustOk, Branch, Covering, Build, ExactWindow, WindowExists;
    InvOf(rules, c);
    TreeWindowExact(rules, c.tree, p, requested);
    forall i | 0 <= i < |Branch(c.tree, p)| {
      OnlyOldestPartial(Branch(c.tree, p), requested, i);
    }
  }

  /** A window that a share's ancestry entitles it to fails only by a collision of miner identifiers. */
  lemma NoWindowMeansCollision(rules: Rules, c: Chain, p: ShareId, requested: nat)
    requires Reachable(rules, ConsistentRecords(), c)
    requires p in c.tree && p != NO_SHARE && requested > 0 && (rules.policy.Some? ==> c.tree[p].validated)
    requires Build(rules, c.tree, p, requested).Thrown?
    ensures exists s, t :: s in Branch(c.tree, p) && t in Branch(c.tree, p) && MinersCollide(rules, s, t)
  {
    InvOf(rules, c);
    TreeWindowExact(rules, c.tree, p, requested);
    BranchEncodable(rules, c.tree, p);
    CoveringExact(Branch(c.tree, p), requested);
    hide Reachable, Inv, TreeOk, TrustOk, Branch, Covering, Build, Encodable;
    var branch := Branch(c.tree, p);
    EncodableAgree(rules, branch);
    var s, t :| s in Covering(branch, requested) && t in Covering(branch, requested) && ConflictBetween(s, t);
    assert s in branch && t in branch;
  }

  lemma InvOf(rules: Rules, c: Chain)
    requires Reachable(rules, ConsistentRecords(), c)
    ensures TreeOk(rules, c.tree) && TrustOk(rules, ConsistentRecords(), c.tree)
    ensures Inv(rules, ConsistentRecords(), c)
  {
    TrustsAreSound(rules);
    ReachableInv(rules, ConsistentRecords(), c);
  }

  /** In every reachable chain, cumulative work is the sum of the difficulties from the root, heights count
      the shares on the way, and the work fits its 32 bytes. */
  lemma WorkIsBranchSum(rules: Rules, c: Chain, p: ShareId)
    requires Reachable(rules, ConsistentRecords(), c) && p in c.tree && p != NO_SHARE
    ensures TotalWork(Branch(c.tree, p)) == c.tree[p].work < TWO_256
    ensures |Branch(c.tree, p)| == c.tree[p].share.height + 1
  {
    InvOf(rules, c);
    hide Reachable, Inv, TotalWork, Branch;
    BranchWork(rules, c.tree, p);
    assert NodeOk(rules, c.tree, p);
  }

  /** A request within the newest `n` shares needs no more than them. */
  lemma CoveringShorter(shares: seq<Share>, requested: nat, n: nat)
    requires requested <= TotalWork(Newest(shares, n))
    ensures |Covering(shares, requested)| <= n
  {
    CoveringExact(shares, requested);
    var taken := Covering(shares, requested);
    if |taken| > n {
      assert taken[..|taken| - 1] == shares[..|taken| - 1];
      TotalWorkMonotone(shares, n, |taken| - 1);
    }
  }

  ghost predicate ExactSidechainWindow(branch: seq<Share>, params: WindowParams, network: Difficulty, w: Window) {
    && w.complete && w.included <= params.windowShares && w.covered == w.requested == SumRows(w.miners)
    && w.requested == PolicyWork(branch, params, network) > 0
    && w == WindowOf(Covering(branch, w.requested), w.requested)
  }

  /** The work the policy asks for: the newest shares, capped by the network. */
  ghost function PolicyWork(branch: seq<Share>, params: WindowParams, network: Difficulty): nat {
    Min(TotalWork(Newest(branch, params.windowShares)), network * params.multiplier)
  }

  lemma TreeSidechainWindowExact(
    rules: Rules, tree: Tree, p: ShareId, params: WindowParams, network: Difficulty)
    requires TreeOk(rules, tree) && TrustOk(rules, ConsistentRecords(), tree)
    requires p in tree && p != NO_SHARE && ParamsAllowed(params, network)
    ensures SidechainWindow(rules, tree, p, params, network).Value?
       <==> WindowExists(rules, tree, p, PolicyWork(Branch(tree, p), params, network))
    ensures SidechainWindow(rules, tree, p, params, network).Value? ==>
      ExactSidechainWindow(Branch(tree, p), params, network, SidechainWindow(rules, tree, p, params, network).value)
  {
    hide TreeOk, TrustOk, Branch, Covering, Build, TotalWork, RowsFor, Newest, PayoutsConflict;
    var branch, n := Branch(tree, p), params.windowShares;
    if rules.policy.Some? && !tree[p].validated {
      assert RecentWork(rules, tree, p, n) == Thrown;
    } else {
      hide RecentWork;
      RecentIsBranch(rules, ConsistentRecords(), tree, p, n);
      var requested := PolicyWork(branch, params, network);
      Product(network, params.multiplier);
      TreeWindowExact(rules, tree, p, requested);
      CoveringShorter(branch, requested, n);
      NewestWork(rules, tree, p, n);
    }
  }

  /** The sidechain window of a share exists exactly when the share may earn and the credited shares do
      not conflict.  Then it is complete and includes at most the configured number of shares: the
      program's bound check cannot fail. */
  lemma SidechainWindowExact(
    rules: Rules, c: Chain, p: ShareId, params: WindowParams, network: Difficulty)
    requires Reachable(rules, ConsistentRecords(), c)
    requires p in c.tree && p != NO_SHARE && ParamsAllowed(params, network)
    ensures SidechainWindow(rules, c.tree, p, params, network).Value?
       <==> WindowExists(rules, c.tree, p, PolicyWork(Branch(c.tree, p), params, network))
    ensures SidechainWindow(rules, c.tree, p, params, network).Value? ==>
      ExactSidechainWindow(Branch(c.tree, p), params, network, SidechainWindow(rules, c.tree, p, params, network).value)
  {
    hide Reachable, Inv, TreeOk, TrustOk, Branch, SidechainWindow, ExactSidechainWindow, WindowExists, PolicyWork;
    InvOf(rules, c);
    TreeSidechainWindowExact(rules, c.tree, p, params, network);
  }

  lemma NewestWork(rules: Rules, tree: Tree, p: ShareId, n: nat)
    requires TreeOk(rules, tree) && p in tree && p != NO_SHARE
    ensures TotalWork(Newest(Branch(tree, p), n)) <= tree[p].work
  {
    var branch := Branch(tree, p);
    BranchWork(rules, tree, p);
    hide TreeOk, Branch;
    assert branch[..|branch|] == branch;
    TotalWorkMonotone(branch, Min(n, |branch|), |branch|);
  }

  lemma Product(a: nat, b: nat)
    requires a > 0 && b > 0
    ensures a * b > 0
  {
  }

  // ---- Agreement -------------------------------------------------------------------------------

  /** Two nodes that hold share `p`, and may both pay from it, compute the same windows, unless two of its
      ancestors are different shares with one identifier. */
  lemma WindowsAgree(
    rules: Rules, a: Chain, b: Chain, p: ShareId, params: WindowParams, network: Difficulty, requested: nat)
    requires Reachable(rules, ConsistentRecords(), a) && Reachable(rules, ConsistentRecords(), b)
    requires p in a.tree && p in b.tree && p != NO_SHARE && NoCollision(rules, a.tree, b.tree, p)
    requires rules.policy.Some? ==> a.tree[p].validated && b.tree[p].validated
    ensures Build(rules, a.tree, p, requested) == Build(rules, b.tree, p, requested)
    ensures SidechainWindow(rules, a.tree, p, params, network) == SidechainWindow(rules, b.tree, p, params, network)
  {
    InvOf(rules, a);
    InvOf(rules, b);
    NodesAgree(rules, a, b, p, network);
    SameBranchSameWindow(rules, a.tree, b.tree, p, params, network, requested);
  }

  lemma SameBranchSameWindow(
    rules: Rules, a: Tree, b: Tree, p: ShareId, params: WindowParams, network: Difficulty, requested: nat)
    requires TreeOk(rules, a) && TrustOk(rules, ConsistentRecords(), a)
    requires TreeOk(rules, b) && TrustOk(rules, ConsistentRecords(), b)
    requires p in a && p in b && p != NO_SHARE && Branch(a, p) == Branch(b, p)
    requires rules.policy.Some? ==> a[p].validated && b[p].validated
    ensures Build(rules, a, p, requested) == Build(rules, b, p, requested)
    ensures SidechainWindow(rules, a, p, params, network) == SidechainWindow(rules, b, p, params, network)
  {
    var trust := ConsistentRecords();
    hide TreeOk, TrustOk, Branch, Covering, WindowOf, PayoutsAgree;
    WalkIsCovering(rules, trust, a, p, requested);
    WalkIsCovering(rules, trust, b, p, requested);
    if ParamsAllowed(params, network) {
      RecentIsBranch(rules, trust, a, p, params.windowShares);
      RecentIsBranch(rules, trust, b, p, params.windowShares);
      var recent := RecentWork(rules, a, p, params.windowShares).value;
      WalkIsCovering(rules, trust, a, p, Min(recent, network * params.multiplier));
      WalkIsCovering(rules, trust, b, p, Min(recent, network * params.multiplier));
    }
  }

  /** No operation that keeps `p` connected takes away its right to earn or changes its windows. */
  lemma WindowIsStable(
    rules: Rules, c: Chain, op: Op, p: ShareId, params: WindowParams, network: Difficulty, requested: nat)
    requires Reachable(rules, ConsistentRecords(), c)
    requires p != NO_SHARE && p in c.tree && p in Apply(rules, c, op).tree
    requires rules.policy.Some? ==> c.tree[p].validated
    ensures var tree' := Apply(rules, c, op).tree;
      && Build(rules, tree', p, requested) == Build(rules, c.tree, p, requested)
      && SidechainWindow(rules, tree', p, params, network) == SidechainWindow(rules, c.tree, p, params, network)
  {
    var trust, c' := ConsistentRecords(), Apply(rules, c, op);
    InvOf(rules, c);
    TrustsAreSound(rules);
    AnyRestoreIsConsistent(rules, c, op);
    StepsAgree(rules, trust, c, op);
    ApplyKeepsInv(rules, trust, c, op);
    assert TreeOk(rules, c'.tree) && TrustOk(rules, trust, c'.tree);
    hide Reachable, Inv, Apply, TreeOk, TrustOk, SoundTrust, Build, SidechainWindow;
    if SameShares(c.tree, c'.tree) {
      BranchKept(rules, c.tree, c'.tree, p);
    } else {
      BranchKept(rules, c'.tree, c.tree, p);
    }
    SameBranchSameWindow(rules, c.tree, c'.tree, p, params, network, requested);
  }
}

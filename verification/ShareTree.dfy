/** The share tree as a value: what every operation of `ShareChain` does to it.

    A chain is a forest of connected shares, a buffer of orphans waiting for a parent, and the best
    tip.  `detached` holds the orphans that are no longer listed under their parent: promotion takes
    them off the list before connecting them, so an exception thrown half-way leaves some behind. */
module ShareTree {
  import opened Basics
  import opened Orders
  import opened Shares
  import opened Records
  import opened Retarget

  const MAX_FUTURE_SECONDS: nat := 60
  const MAX_PARENT_BACKSTEP_SECONDS: nat := 60

  /** `parameters` is the identifier of the sidechain parameters the chain was built from. */
  datatype Policy = Policy(parameters: Hash256, minVersion: U8, maxVersion: U8, rule: RetargetRule)

  /** The configuration of a chain, and the hash functions it relies on. */
  datatype Rules = Rules(
    policy: Option<Policy>,
    idOf: Share -> ShareId,
    minerOf: PayoutKeys -> MinerId,
    progpow: (U64, Hash256, U64) -> Pow)

  /** `matches_sidechain_parameters`. */
  predicate Matches(rules: Rules, parameters: Hash256) {
    rules.policy.Some? && rules.policy.value.parameters == parameters
  }

  datatype Node = Node(
    share: Share,
    id: ShareId,
    work: nat,
    pow: Option<Validation>,
    validated: bool)

  datatype Orphan = Orphan(share: Share, id: ShareId, pow: Option<Validation>, enforce: bool)

  type Tree = map<ShareId, Node>

  datatype Chain = Chain(
    tree: Tree,
    orphans: map<ShareId, Orphan>,
    detached: set<ShareId>,
    tip: Option<ShareId>)

  const EMPTY_CHAIN := Chain(map[], map[], {}, None)

  datatype Reason =
    | Accepted
    | UnexpectedVersion
    | ZeroShareDifficulty
    | ZeroNetworkDifficulty
    | ShareAboveNetwork
    | UnexpectedDifficulty
    | InvalidRootHeight
    | InvalidNonRootHeight
    | ParentHeightMismatch
    | TimestampTooFarFuture
    | TimestampBeforeParent
    | ZanoHeightMismatch
    | HeaderMismatch
    | NetworkDifficultyMismatch
    | PowUnavailable
    | InvalidPow
    | WorkOverflow

  datatype WorkContext = WorkContext(zanoHeight: U64, header: Hash256, networkDifficulty: Difficulty)

  // ---- Checks on one share ---------------------------------------------------------------------

  function StructuralReason(rules: Rules, s: Share): Reason {
    if rules.policy.Some? &&
       (s.version < rules.policy.value.minVersion || s.version > rules.policy.value.maxVersion)
    then UnexpectedVersion
    else if s.difficulty == 0 then ZeroShareDifficulty
    else if s.networkDifficulty == 0 then ZeroNetworkDifficulty
    else if s.difficulty > s.networkDifficulty then ShareAboveNetwork
    else if IsRoot(s) then (if s.height != 0 then InvalidRootHeight else Accepted)
    else if s.height == 0 then InvalidNonRootHeight
    else Accepted
  }

  function ContextReason(s: Share, context: WorkContext): Reason {
    if s.zanoHeight != context.zanoHeight then ZanoHeightMismatch
    else if s.header != context.header then HeaderMismatch
    else if s.networkDifficulty != context.networkDifficulty then NetworkDifficultyMismatch
    else Accepted
  }

  function FutureReason(s: Share, now: U64): Reason {
    if s.timestamp > now && s.timestamp - now > MAX_FUTURE_SECONDS then TimestampTooFarFuture
    else Accepted
  }

  function ParentReason(s: Share, parent: Share): Reason {
    if parent.height == U64_MAX || s.height != parent.height + 1 then ParentHeightMismatch
    else if s.timestamp < parent.timestamp &&
            parent.timestamp - s.timestamp > MAX_PARENT_BACKSTEP_SECONDS then TimestampBeforeParent
    else Accepted
  }

  /** The locally computed proof-of-work record of a share. */
  function LocalValidation(rules: Rules, s: Share): Validation
    requires s.difficulty > 0 && s.networkDifficulty > 0
  {
    ValidateCandidate(rules.progpow(s.zanoHeight, s.header, s.nonce), s.difficulty, s.networkDifficulty)
  }

  predicate PassesPow(v: Validation) { v.meetsShare && v.classification != Invalid }

  // ---- Checks against the tree -----------------------------------------------------------------

  /** Timestamps and cumulative works from `p` towards its root, newest first, at most `n`. */
  ghost function History(tree: Tree, p: ShareId, n: nat): seq<Sample>
    decreases n
  {
    if n == 0 || p == NO_SHARE || p !in tree then []
    else [Sample(tree[p].share.timestamp, tree[p].work)] + History(tree, tree[p].share.parent, n - 1)
  }

  /** The difficulty a child of `p` must have. */
  ghost function Expected(rules: Rules, tree: Tree, p: ShareId, network: Difficulty)
    : Outcome<Difficulty>
  {
    if rules.policy.None? || (p != NO_SHARE && p !in tree) then Thrown
    else
      var rule := rules.policy.value.rule;
      NextDifficulty(History(tree, p, rule.window), rule, network)
  }

  ghost function DifficultyReason(rules: Rules, tree: Tree, s: Share): Outcome<Reason> {
    if rules.policy.None? || (!IsRoot(s) && s.parent !in tree) then Value(Accepted)
    else
      var expected := Expected(rules, tree, s.parent, s.networkDifficulty);
      if expected.Thrown? then Thrown
      else Value(if expected.value == s.difficulty then Accepted else UnexpectedDifficulty)
  }

  /** Whether a share may join the tree now, and if not why. */
  ghost function ConnectReason(rules: Rules, tree: Tree, s: Share, enforce: bool): Outcome<Reason> {
    if !IsRoot(s) && s.parent !in tree then Thrown
    else if !IsRoot(s) && ParentReason(s, tree[s.parent].share) != Accepted then
      Value(ParentReason(s, tree[s.parent].share))
    else if enforce && DifficultyReason(rules, tree, s) != Value(Accepted) then
      DifficultyReason(rules, tree, s)
    else if !IsRoot(s) && tree[s.parent].work + s.difficulty >= TWO_256 then Value(WorkOverflow)
    else Value(Accepted)
  }

  ghost function NewNode(tree: Tree, s: Share, id: ShareId, pow: Option<Validation>, enforce: bool)
    : Node
    requires IsRoot(s) || s.parent in tree
  {
    Node(s, id,
         (if IsRoot(s) then 0 else tree[s.parent].work) + s.difficulty,
         pow,
         enforce && pow.Some? && pow.value.meetsShare && (IsRoot(s) || tree[s.parent].validated))
  }

  // ---- Tip selection ---------------------------------------------------------------------------

  /** More work, then more height, then the smaller identifier. */
  predicate BetterTip(a: Node, b: Node) {
    if a.work != b.work then a.work > b.work
    else if a.share.height != b.share.height then a.share.height > b.share.height
    else a.id < b.id
  }

  /** The tip beats every other connected share. */
  ghost predicate IsBestTip(tree: Tree, tip: Option<ShareId>) {
    match tip
    case None => tree == map[]
    case Some(t) => t in tree && forall id | id in tree && id != t :: BetterTip(tree[t], tree[id])
  }

  ghost function TipWith(c: Chain, node: Node): Option<ShareId> {
    if c.tip.None? || c.tip.value !in c.tree || BetterTip(node, c.tree[c.tip.value])
    then Some(node.id) else c.tip
  }

  // ---- Adding and promoting --------------------------------------------------------------------

  /** The orphans listed under `p`. */
  ghost function ListedUnder(c: Chain, p: ShareId): set<ShareId> {
    set o | o in c.orphans && o !in c.detached && c.orphans[o].share.parent == p
  }

  ghost function Link(c: Chain, node: Node): Chain {
    c.(tree := c.tree[node.id := node], tip := TipWith(c, node))
  }

  ghost function Unlist(c: Chain, ids: set<ShareId>): Chain {
    c.(detached := c.detached + ids)
  }

  /** Connect a share and take the orphans waiting for it off the list. */
  ghost function Attach(c: Chain, node: Node): Chain {
    Unlist(Link(c, node), ListedUnder(c, node.id))
  }

  ghost function DropOrphan(c: Chain, id: ShareId): (d: Chain)
    ensures id in c.orphans ==> |d.orphans| < |c.orphans|
  {
    assert id in c.orphans ==> (c.orphans - {id}).Keys == c.orphans.Keys - {id};
    c.(orphans := c.orphans - {id}, detached := c.detached - {id})
  }

  datatype Promotion = Promotion(chain: Chain, promoted: nat, threw: bool)

  /** What happens to one unlisted orphan: its check throws, or it leaves the buffer for the tree or for
      nowhere, and `next` lists the orphans that were waiting for it. */
  datatype Turn = Throws | Done(chain: Chain, promoted: nat, next: seq<ShareId>)

  ghost function TakeTurn(rules: Rules, c: Chain, id: ShareId): (t: Turn)
    requires id in c.orphans
    ensures t.Done? ==> |t.chain.orphans| < |c.orphans|
  {
    var o := c.orphans[id];
    var reason := ConnectReason(rules, c.tree, o.share, o.enforce);
    var dropped := DropOrphan(c, id);
    if reason.Thrown? then Throws
    else if reason.value != Accepted then Done(dropped, 0, [])
    else Done(Attach(dropped, NewNode(c.tree, o.share, id, o.pow, o.enforce)),
              1, Keys(ListedUnder(dropped, id)))
  }

  /** Take the unlisted orphans `todo` in order, each followed by the orphans waiting for it. */
  ghost function Drain(rules: Rules, c: Chain, todo: seq<ShareId>): Promotion
    decreases |c.orphans|, |todo|
  {
    if todo == [] then Promotion(c, 0, false)
    else if todo[0] !in c.orphans then Drain(rules, c, todo[1..])
    else
      match TakeTurn(rules, c, todo[0])
      case Throws => Promotion(c, 0, true)
      case Done(c', promoted, next) =>
        var rest := Drain(rules, c', next + todo[1..]);
        rest.(promoted := promoted + rest.promoted)
  }

  ghost function Resume(rules: Rules, sofar: Promotion, todo: seq<ShareId>): Promotion {
    if sofar.threw then sofar
    else
      var rest := Drain(rules, sofar.chain, todo);
      rest.(promoted := sofar.promoted + rest.promoted)
  }

  lemma DrainUnfold(rules: Rules, c: Chain, first: ShareId, rest: seq<ShareId>)
    ensures Drain(rules, c, [first] + rest) ==
      if first !in c.orphans then Drain(rules, c, rest)
      else
        var turn := TakeTurn(rules, c, first);
        if turn.Throws? then Promotion(c, 0, true)
        else Resume(rules, Promotion(turn.chain, turn.promoted, false), turn.next + rest)
  {
    hide TakeTurn;
    assert ([first] + rest)[1..] == rest;
  }

  /** Promoting one list after another is promoting both: recursion equals a work list. */
  lemma {:induction false} DrainConcat(rules: Rules, c: Chain, a: seq<ShareId>, b: seq<ShareId>)
    ensures Drain(rules, c, a + b) == Resume(rules, Drain(rules, c, a), b)
    decreases |c.orphans|, |a|
  {
    hide Drain, TakeTurn;
    if a == [] {
      assert [] + b == b;
      DrainNothing(rules, c);
    } else {
      var first, rest := a[0], a[1..];
      assert a == [first] + rest && a + b == [first] + (rest + b);
      DrainUnfold(rules, c, first, rest);
      DrainUnfold(rules, c, first, rest + b);
      if first !in c.orphans {
        DrainConcat(rules, c, rest, b);
      } else {
        var turn := TakeTurn(rules, c, first);
        if turn.Done? {
          assert turn.next + (rest + b) == (turn.next + rest) + b;
          DrainConcat(rules, turn.chain, turn.next + rest, b);
        }
      }
    }
  }

  lemma DrainNothing(rules: Rules, c: Chain)
    ensures Drain(rules, c, []) == Promotion(c, 0, false)
  {
  }

  datatype Disposition = WasConnected | WasOrphaned | WasDuplicate | WasRejected
  datatype AddResult = AddResult(
    disposition: Disposition,
    reason: Reason,
    id: ShareId,
    promoted: nat,
    tipChanged: bool)

  /** A new state together with what the caller sees. */
  datatype Step<+T> = Step(chain: Chain, outcome: Outcome<T>)

  ghost function Refuse(c: Chain, disposition: Disposition, reason: Reason, id: ShareId)
    : Step<AddResult>
  {
    Step(c, Value(AddResult(disposition, reason, id, 0, false)))
  }

  ghost predicate Known(c: Chain, id: ShareId) { id in c.tree || id in c.orphans }

  ghost function ConnectAndPromote(
    rules: Rules, c: Chain, s: Share, id: ShareId, pow: Option<Validation>, enforce: bool)
    : Step<AddResult>
    requires IsRoot(s) || s.parent in c.tree
  {
    var node := NewNode(c.tree, s, id, pow, enforce);
    var run := Drain(rules, Attach(c, node), Keys(ListedUnder(c, id)));
    Step(run.chain,
         if run.threw then Thrown
         else Value(AddResult(WasConnected, Accepted, id, run.promoted, run.chain.tip != c.tip)))
  }

  ghost function AddPrevalidated(
    rules: Rules, c: Chain, s: Share, pow: Option<Validation>, enforce: bool): Step<AddResult>
  {
    if !Encodable(s, rules.minerOf) then Step(c, Thrown)
    else
      var id := rules.idOf(s);
      if Known(c, id) then Refuse(c, WasDuplicate, Accepted, id)
      else if StructuralReason(rules, s) != Accepted then
        Refuse(c, WasRejected, StructuralReason(rules, s), id)
      else if !IsRoot(s) && s.parent !in c.tree then
        Refuse(c.(orphans := c.orphans[id := Orphan(s, id, pow, enforce)]), WasOrphaned, Accepted, id)
      else
        var reason := ConnectReason(rules, c.tree, s, enforce);
        if reason.Thrown? then Step(c, Thrown)
        else if reason.value != Accepted then Refuse(c, WasRejected, reason.value, id)
        else ConnectAndPromote(rules, c, s, id, pow, enforce)
  }

  ghost function AddUnchecked(rules: Rules, c: Chain, s: Share): Step<AddResult> {
    AddPrevalidated(rules, c, s, None, false)
  }

  /** The checks before proof of work, in the program's order. */
  ghost function AdmissionReason(rules: Rules, tree: Tree, s: Share, context: WorkContext, now: U64)
    : Outcome<Reason>
  {
    if StructuralReason(rules, s) != Accepted then Value(StructuralReason(rules, s))
    else if ContextReason(s, context) != Accepted then Value(ContextReason(s, context))
    else if FutureReason(s, now) != Accepted then Value(FutureReason(s, now))
    else if !IsRoot(s) && s.parent in tree && ParentReason(s, tree[s.parent].share) != Accepted then
      Value(ParentReason(s, tree[s.parent].share))
    else DifficultyReason(rules, tree, s)
  }

  ghost function Submit(
    rules: Rules, c: Chain, s: Share, context: WorkContext, now: U64, powAvailable: bool)
    : Step<AddResult>
  {
    if !Encodable(s, rules.minerOf) then Step(c, Thrown)
    else
      var id := rules.idOf(s);
      if Known(c, id) then Refuse(c, WasDuplicate, Accepted, id)
      else
        var reason := AdmissionReason(rules, c.tree, s, context, now);
        if reason.Thrown? then Step(c, Thrown)
        else if reason.value != Accepted then Refuse(c, WasRejected, reason.value, id)
        else if !powAvailable then Refuse(c, WasRejected, PowUnavailable, id)
        else
          var v := LocalValidation(rules, s);
          if !PassesPow(v) then Refuse(c, WasRejected, InvalidPow, id)
          else AddPrevalidated(rules, c, s, Some(v), rules.policy.Some?)
  }

  // ---- Re-establishing validation --------------------------------------------------------------

  datatype RevalidateStatus = Validated | AlreadyValidated | NotConnected | ParentUnvalidated | Rejected
  datatype RevalidateResult = RevalidateResult(status: RevalidateStatus, reason: Reason)

  ghost function MarkValidated(c: Chain, id: ShareId, v: Validation): Chain
    requires id in c.tree
  {
    c.(tree := c.tree[id := c.tree[id].(pow := Some(v), validated := true)])
  }

  function Reject(reason: Reason): Outcome<RevalidateResult> {
    Value(RevalidateResult(Rejected, reason))
  }

  ghost function RevalidateVerdict(
    rules: Rules, tree: Tree, id: ShareId, context: WorkContext, now: U64, powAvailable: bool)
    : Outcome<RevalidateResult>
  {
    if id !in tree then Value(RevalidateResult(NotConnected, Accepted))
    else if tree[id].validated then Value(RevalidateResult(AlreadyValidated, Accepted))
    else if rules.policy.None? then Reject(UnexpectedDifficulty)
    else
      var s := tree[id].share;
      if StructuralReason(rules, s) != Accepted then Reject(StructuralReason(rules, s))
      else if ContextReason(s, context) != Accepted then Reject(ContextReason(s, context))
      else if FutureReason(s, now) != Accepted then Reject(FutureReason(s, now))
      else if !IsRoot(s) && s.parent !in tree then Reject(ParentHeightMismatch)
      else if !IsRoot(s) && !tree[s.parent].validated then
        Value(RevalidateResult(ParentUnvalidated, Accepted))
      else if !IsRoot(s) && ParentReason(s, tree[s.parent].share) != Accepted then
        Reject(ParentReason(s, tree[s.parent].share))
      else
        var reason := DifficultyReason(rules, tree, s);
        if reason.Thrown? then Thrown
        else if reason.value != Accepted then Reject(reason.value)
        else if !powAvailable then Reject(PowUnavailable)
        else if !PassesPow(LocalValidation(rules, s)) then Reject(InvalidPow)
        else Value(RevalidateResult(Validated, Accepted))
  }

  /** Only a share that passes every check is changed, and only in its record and its flag. */
  ghost function Revalidate(
    rules: Rules, c: Chain, id: ShareId, context: WorkContext, now: U64, powAvailable: bool)
    : Step<RevalidateResult>
  {
    var verdict := RevalidateVerdict(rules, c.tree, id, context, now, powAvailable);
    Step(if verdict == Value(RevalidateResult(Validated, Accepted))
         then MarkValidated(c, id, LocalValidation(rules, c.tree[id].share)) else c,
         verdict)
  }

  // ---- Exporting and restoring validation ------------------------------------------------------

  /** A share already marked validated is in the state validation leaves behind. */
  ghost predicate ValidatedNodeOk(rules: Rules, tree: Tree, id: ShareId)
    requires id in tree
  {
    && tree[id].pow.Some? && Consistent(tree[id].pow.value)
    && rules.idOf(tree[id].share) == id
    && (IsRoot(tree[id].share) ||
        (tree[id].share.parent in tree && tree[tree[id].share.parent].validated))
  }

  ghost predicate AllValidatedOk(rules: Rules, tree: Tree) {
    forall id | id in tree && tree[id].validated :: ValidatedNodeOk(rules, tree, id)
  }

  /** The parent is validated already or is being restored in the same call. */
  ghost predicate WillBeValidated(tree: Tree, ids: set<ShareId>, p: ShareId) {
    p in tree && (tree[p].validated || p in ids)
  }

  ghost predicate RecordOk(rules: Rules, tree: Tree, ids: set<ShareId>, rec: Record) {
    && rec.id != NO_SHARE
    && Consistent(rec.validation)
    && rec.id in tree
    && rules.idOf(tree[rec.id].share) == rec.id
    && var node := tree[rec.id];
       if node.validated then node.pow == Some(rec.validation)
       else
         && StructuralReason(rules, node.share) == Accepted
         && (IsRoot(node.share) ||
             (WillBeValidated(tree, ids, node.share.parent) &&
              ParentReason(node.share, tree[node.share.parent].share) == Accepted))
         && DifficultyReason(rules, tree, node.share) == Value(Accepted)
  }

  ghost predicate RestoreAllowed(rules: Rules, tree: Tree, records: seq<Record>) {
    && rules.policy.Some?
    && AllValidatedOk(rules, tree)
    && DistinctIds(records)
    && forall rec | rec in records :: RecordOk(rules, tree, Ids(records), rec)
  }

  ghost function ValidationOf(records: seq<Record>, id: ShareId): Validation
    requires id in Ids(records)
  {
    var rec :| rec in records && rec.id == id;
    rec.validation
  }

  ghost function RestoredNode(records: seq<Record>, node: Node): Node {
    if node.id in Ids(records) && !node.validated
    then node.(pow := Some(ValidationOf(records, node.id)), validated := true)
    else node
  }

  ghost function RestoredTree(tree: Tree, records: seq<Record>): Tree {
    map id | id in tree :: RestoredNode(records, tree[id])
  }

  ghost function NewlyValidated(tree: Tree, records: seq<Record>): set<ShareId> {
    set id | id in tree && id in Ids(records) && !tree[id].validated
  }

  /** All or nothing; nothing here depends on the order of the records. */
  ghost function Restore(rules: Rules, c: Chain, records: seq<Record>): Step<nat> {
    if records == [] then Step(c, Value(0))
    else if !RestoreAllowed(rules, c.tree, records) then Step(c, Thrown)
    else Step(c.(tree := RestoredTree(c.tree, records)), Value(|NewlyValidated(c.tree, records)|))
  }

  // ---- Pruning ---------------------------------------------------------------------------------

  /** `id` is `root` or has it as an ancestor.  Heights fall towards the root, so the walk ends. */
  ghost predicate Descends(tree: Tree, id: ShareId, root: ShareId)
    decreases if id in tree then tree[id].share.height else 0
  {
    id in tree && (id == root ||
      (var s := tree[id].share;
       && !IsRoot(s) && s.parent in tree && tree[s.parent].share.height < s.height
       && Descends(tree, s.parent, root)))
  }

  ghost function Subtree(tree: Tree, root: ShareId): set<ShareId> {
    set id | id in tree && Descends(tree, id, root)
  }

  lemma {:induction false} BestTipExists(tree: Tree) returns (tip: Option<ShareId>)
    requires forall id | id in tree :: tree[id].id == id
    ensures IsBestTip(tree, tip)
  {
    if tree == map[] {
      return None;
    }
    var id :| id in tree;
    var others := tree - {id};
    assert id !in others && forall x | x in tree && x != id :: x in others && others[x] == tree[x];
    var rest := BestTipExists(others);
    tip := if rest.None? || BetterTip(tree[id], tree[rest.value]) then Some(id) else rest;
  }

  lemma BestTipDefined(tree: Tree)
    requires forall id | id in tree :: tree[id].id == id
    ensures exists tip :: IsBestTip(tree, tip)
  {
    var _ := BestTipExists(tree);
  }

  lemma BestTipUnique(tree: Tree, a: Option<ShareId>, b: Option<ShareId>)
    requires IsBestTip(tree, a) && IsBestTip(tree, b)
    ensures a == b
  {
  }

  ghost function BestTip(tree: Tree): (tip: Option<ShareId>)
    ensures (forall id | id in tree :: tree[id].id == id) ==> IsBestTip(tree, tip)
  {
    if (forall id | id in tree :: tree[id].id == id) then
      BestTipDefined(tree);
      var tip :| IsBestTip(tree, tip);
      tip
    else None
  }

  ghost function Prune(c: Chain, root: ShareId): Chain {
    if root !in c.tree then c
    else
      var kept := c.tree - Subtree(c.tree, root);
      c.(tree := kept, tip := BestTip(kept))
  }
}

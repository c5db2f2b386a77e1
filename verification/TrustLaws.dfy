/** Revalidating, restoring and exporting, in terms of the fields of the shares and records involved. */
module TrustLaws {
  import opened Basics
  import opened Shares
  import opened Records
  import opened ShareTree
  import opened TreeInvariant
  import opened Restart
  import opened Admission

  // ---- Revalidation ----------------------------------------------------------------------------

  /** A connected share's shape and parent need no second look. */
  lemma ConnectedIsSound(rules: Rules, trust: Trust, c: Chain, id: ShareId)
    requires Inv(rules, trust, c) && id in c.tree
    ensures var s := c.tree[id].share;
      && StructuralReason(rules, s) == Accepted && s.difficulty > 0 && s.networkDifficulty > 0
      && Attached(c.tree, s) && rules.idOf(s) == id && c.tree[id].id == id
      && (s.parent != 0 ==> ParentReason(s, c.tree[s.parent].share) == Accepted)
  {
    assert NodeOk(rules, c.tree, id);
  }

  /** Every verdict on a share of a sound chain, in the order of the checks. */
  lemma RevalidateTable(
    rules: Rules, trust: Trust, c: Chain, id: ShareId, context: WorkContext, now: U64, powAvailable: bool)
    requires Inv(rules, trust, c)
    ensures var r := RevalidateVerdict(rules, c.tree, id, context, now, powAvailable);
      if id !in c.tree then r == Value(RevalidateResult(NotConnected, Accepted))
      else if c.tree[id].validated then r == Value(RevalidateResult(AlreadyValidated, Accepted))
      else if rules.policy.None? then r == Value(RevalidateResult(Rejected, UnexpectedDifficulty))
      else
        var s := c.tree[id].share;
        if ContextReason(s, context) != Accepted then r == Value(RevalidateResult(Rejected, ContextReason(s, context)))
        else if s.timestamp > now + 60 then r == Value(RevalidateResult(Rejected, TimestampTooFarFuture))
        else if s.parent != 0 && (s.parent !in c.tree || !c.tree[s.parent].validated) then
          r == Value(RevalidateResult(ParentUnvalidated, Accepted))
        else if DemandThrows(rules, c.tree, s) then r.Thrown?
        else if !AsDemanded(rules, c.tree, s) then r == Value(RevalidateResult(Rejected, UnexpectedDifficulty))
        else if !powAvailable then r == Value(RevalidateResult(Rejected, PowUnavailable))
        else if PowHash(rules, s) * s.difficulty >= TWO_256 then r == Value(RevalidateResult(Rejected, InvalidPow))
        else r == Value(RevalidateResult(Validated, Accepted))
  {
    if id in c.tree {
      var s := c.tree[id].share;
      ConnectedIsSound(rules, trust, c, id);
      FutureTable(s, now);
      DifficultyTable(rules, c.tree, s);
      CandidateTable(rules.progpow(s.zanoHeight, s.header, s.nonce), s.difficulty, s.networkDifficulty);
      hide Inv, StructuralReason, ContextReason, FutureReason, ParentReason, DifficultyReason, ValidateCandidate,
           AsDemanded, DemandThrows;
    }
  }

  /** Only a share that revalidates changes, and it becomes validated with its own record. */
  lemma RevalidateEffect(
    rules: Rules, trust: Trust, c: Chain, id: ShareId, context: WorkContext, now: U64, powAvailable: bool)
    requires Inv(rules, trust, c)
    ensures var step := Revalidate(rules, c, id, context, now, powAvailable);
      && step.outcome == RevalidateVerdict(rules, c.tree, id, context, now, powAvailable)
      && (step.chain != c ==> step.outcome == Value(RevalidateResult(Validated, Accepted)))
      && step.chain == c.(tree := step.chain.tree) && step.chain.tree.Keys == c.tree.Keys
      && (forall x | x in c.tree && x != id :: step.chain.tree[x] == c.tree[x])
      && (step.outcome == Value(RevalidateResult(Validated, Accepted)) ==>
            && id in c.tree && c.tree[id].share.difficulty > 0 && c.tree[id].share.networkDifficulty > 0
            && step.chain.tree[id] ==
               c.tree[id].(pow := Some(LocalValidation(rules, c.tree[id].share)), validated := true))
  {
    if id in c.tree {
      ConnectedIsSound(rules, trust, c, id);
    }
    hide Inv, DifficultyReason, StructuralReason, ContextReason, FutureReason, ParentReason, LocalValidation;
  }

  // ---- Restoring -------------------------------------------------------------------------------

  /** A finished record: it meets the share's difficulty, and it is a block exactly when it meets the
      network's. */
  ghost predicate Finished(v: Validation) {
    && v.meetsShare
    && v.classification == (if v.meetsNetwork then BlockClass else ShareClass)
  }

  /** One record of a restore that may go ahead. */
  ghost predicate Restorable(rules: Rules, tree: Tree, ids: set<ShareId>, rec: Record) {
    && rec.id != 0 && Finished(rec.validation) && rec.id in tree
    && var node := tree[rec.id];
       if node.validated then node.pow == Some(rec.validation)
       else
         && (node.share.parent == 0 ||
             (node.share.parent in tree && (tree[node.share.parent].validated || node.share.parent in ids)))
         && AsDemanded(rules, tree, node.share)
  }

  lemma RestorableIs(rules: Rules, trust: Trust, c: Chain, ids: set<ShareId>, rec: Record)
    requires Inv(rules, trust, c)
    ensures RecordOk(rules, c.tree, ids, rec) <==> Restorable(rules, c.tree, ids, rec)
  {
    if rec.id in c.tree {
      ConnectedIsSound(rules, trust, c, rec.id);
      DifficultyTable(rules, c.tree, c.tree[rec.id].share);
    }
    hide Inv, StructuralReason, ParentReason, DifficultyReason, AsDemanded;
  }

  ghost predicate MayRestore(rules: Rules, tree: Tree, records: seq<Record>) {
    && rules.policy.Some?
    && (forall i, j | 0 <= i < j < |records| :: records[i].id != records[j].id)
    && (forall rec | rec in records :: Restorable(rules, tree, Ids(records), rec))
  }

  /** The tree after a restore: exactly the named shares are validated in addition, with their records. */
  ghost predicate RestoredBy(tree: Tree, tree': Tree, records: seq<Record>) {
    && tree'.Keys == tree.Keys
    && (forall id | id in tree && (tree[id].validated || id !in Ids(records)) :: tree'[id] == tree[id])
    && (forall rec | rec in records && rec.id in tree && !tree[rec.id].validated ::
          tree'[rec.id] == tree[rec.id].(pow := Some(rec.validation), validated := true))
  }

  /** All or nothing: when a restore is allowed, and what it does then. */
  lemma RestoreExact(rules: Rules, trust: Trust, c: Chain, records: seq<Record>)
    requires Inv(rules, trust, c) && SoundTrust(rules, trust)
    ensures var step := Restore(rules, c, records);
      if records == [] then step == Step(c, Value(0))
      else if !MayRestore(rules, c.tree, records) then step == Step(c, Thrown)
      else
        && step.chain == c.(tree := step.chain.tree) && RestoredBy(c.tree, step.chain.tree, records)
        && step.outcome.Value?
        && step.outcome.value == |set id | id in c.tree && id in Ids(records) && !c.tree[id].validated|
  {
    hide Restorable, RecordOk, RestoredTree, NewlyValidated;
    forall rec | rec in records
      ensures RecordOk(rules, c.tree, Ids(records), rec) <==> Restorable(rules, c.tree, Ids(records), rec)
    {
      RestorableIs(rules, trust, c, Ids(records), rec);
    }
    if rules.policy.Some? {
      ExportNeverThrows(rules, trust, c);
    }
    TreeIds(rules, c.tree);
    hide Inv, SoundTrust, Export, AllValidatedOk;
    if MayRestore(rules, c.tree, records) {
      RestoredIs(c.tree, records);
      NewlyIs(c.tree, records);
    }
    hide RestoredBy;
  }

  lemma RestoredIs(tree: Tree, records: seq<Record>)
    requires (forall id | id in tree :: tree[id].id == id) && DistinctIds(records)
    ensures RestoredBy(tree, RestoredTree(tree, records), records)
  {
    forall rec | rec in records && rec.id in tree && !tree[rec.id].validated
      ensures RestoredTree(tree, records)[rec.id] == tree[rec.id].(pow := Some(rec.validation), validated := true)
    {
      assert rec.id in Ids(records);
      var found := ValidationOfRecord(records, rec.id);
      assert found == rec;
    }
  }

  lemma NewlyIs(tree: Tree, records: seq<Record>)
    ensures NewlyValidated(tree, records) == set id | id in tree && id in Ids(records) && !tree[id].validated
  {
  }
}

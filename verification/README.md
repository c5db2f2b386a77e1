# The sidechain consensus core of zano-p2pool, verified

Zano-p2pool is a decentralised mining pool. Its nodes keep a tree of *shares*, agree without a coordinator
on the difficulty of the next share and on who is paid how much of the next Zano block, survive restarts
without trusting their own files, and follow the canonical Zano chain when it reorganises. This project
models that core and proves what the design relies on.

## How the project is organised

Each state-changing part is modelled twice. A pure module says what every operation does to an abstract
value, and the laws are proved there, over all inputs and all runs. A class, or a method with loops, follows
the program's own fields and control flow, and its postconditions tie it to the pure functions, so the laws
hold of the program's form too. Exceptions are outcomes (`Thrown`), not preconditions.

The pure functions are themselves answerable to laws that do not mention them. `Heaviest`, `Admission` and the
modules whose names end in `Laws` say what the operations mean in fields, numbers and counts: which share is the
tip, which submissions get in and with what flag, what the difficulty is at a given pace, whom a window and a
plan pay and how much, which shares recovery and reconciliation take away, where every stored share came from,
and where each field lies in an encoding.

| files | part of the system |
|---|---|
| `Basics`, `Bytes`, `Layouts`, `Words`, `Orders` | outcomes, big-endian byte strings and the 256-bit adder, fixed-width records, machine words, sorting and map order |
| `Shares`, `Records`, `Retarget`, `RetargetLaws` | shares and the proof-of-work check, validation records, the branch-relative difficulty rule and its response to pace and target |
| `ShareTree`, `TreeInvariant`, `ShareChain` | the share tree as a value, its invariant over all runs, and the class that implements it |
| `Heaviest`, `Admission`, `TrustLaws` | the tip in numbers, what gets into the tree, and what becomes validated |
| `Confluence`, `Restart`, `Agreement`, `Stranding`, `Clocks`, `Pruning` | arrival order, restart round trips, agreement between nodes, the one failing family and when it cannot occur, pruning |
| `Windows`, `Pplns`, `WindowLaws`, `Apportion`, `Allocation`, `AllocationLaws` | the PPLNS window, the retarget history, and largest-remainder payout |
| `Coinbase`, `PlanLaws`, `PayoutPolicy`, `PayoutPipeline`, `PayoutLaws` | the coinbase plan, whom it pays, the verifier that must accept it, and the whole way from a share to a verified coinbase |
| `ShareCodec`, `ReplayStore`, `EncodingLaws`, `ValidationCache`, `CacheLaws` | canonical encodings, and the validation cache under a canonical checkpoint |
| `Recovery`, `RestartRecovery`, `RecoveryLaws` | one-pass recovery of replayed history |
| `TrustedWork`, `Reconcile`, `ReconcileLaws`, `P2pNode` | trusted work, reorganisation, and the payout expectation |
| `TreeHash`, `WorkRetrieval`, `RetrievalLaws`, `BlockSubmitter`, `SubmitterLaws` | the transaction tree hash, chunked retrieval, the block-submit queue |

## Conventions

* Identifiers and hashes are 32-byte strings identified with their big-endian values. `Bytes` proves that
  this is faithful: encoding and decoding are inverse, and byte-wise comparison is numeric comparison.
  Cumulative work stays a byte array in the `ShareChain` class.
* Share identifiers, miner identifiers, ProgPoW and `hash_pair` are function parameters. No statement assumes
  that a hash is injective. Where a collision would matter, the statement names it: the particular shares,
  encodings, payout keys or hashed pairs that would have to collide. `Confluence` asks only that no two of the
  shares added have one identifier.
* The daemon, the clock and the availability of the proof-of-work backend are explicit arguments.
* A record in a run is *trusted* through a predicate `Trust`. Statements over `ConsistentRecords` assume
  nothing about restored records; statements over `GenuineRecords` say what follows when the validation
  store was written by this node.

## A property that does not hold, and exactly when it does

Promotion takes the orphans of a newly connected share off its waiting list before it connects them
(src/share_chain.cpp:346-348). The difficulty rule throws when the timestamps of a branch span more than
2^32 - 1 seconds (include/zano_p2pool/sidechain_difficulty.hpp:106-108). If that happens during promotion, the
remaining orphans stay in the buffer beside a connected parent, where nothing promotes them, although the
call that connected the parent reports failure. The model keeps this behaviour. `Stranding` gives a run that
reaches such a state (`StrandedOrphanReachable`) and the condition on the state *before* the call under which
it happens (`ConnectThrowsIff`, `AddStrandsIff`, both if and only if).

The run needs a clock near 2^33 seconds, and a clock is what it takes. `Clocks.EarlyRunNeverStrands` shows that
no run strands an orphan while the clock of each submission stays below 2^32 by one minute and one minute per
share of the retarget window, that is, until the year 2106. `NarrowNeverStrands` and `NarrowRunNeverStrands`
give a condition on the timestamps of the branches alone.

A restart heals a stranded chain. `Restart.ReplayRebuildsStructure` shows that replay rebuilds exactly the same
chain iff no orphan is stranded; otherwise (`ReplayHeals`, `RestartRoundTrip`) every connected share is back at
its work, exactly the original validation is restored, and the stranded orphans are connected or rejected like
any other arriving share.

## Model

| member | source | states |
|---|---|---|
| `Bytes.EncodeRoundTrip` | src/share_chain.cpp:53-64 | decoding undoes big-endian encoding exactly when the value fits the width |
| `Bytes.DecodeRoundTrip` | src/pow_target.cpp:43-66 | every byte string is the encoding of its own value |
| `Bytes.LexLessIsNumeric` | src/share_chain.cpp:250-260 | byte-wise comparison of equal-length strings is comparison of their values |
| `Bytes.AddChainWorkChecked` | src/share_chain.cpp:76-89 | the ripple-carry adder succeeds iff the sum is below 2^256, and its bytes are the sum, modulo 2^256 on overflow |
| `Shares.TargetAntitone` | src/pow_target.cpp:80-90 | a higher difficulty has a lower target, so its solutions solve every lower difficulty |
| `Shares.AdmissionIsConsistency` | src/share_validation.cpp:22-45 | for share difficulty at most network difficulty, the admission test passes iff the record is consistent iff the hash meets share difficulty |
| `Shares.MeetsIsProduct` | src/pow_target.cpp:80-90 | a hash meets a difficulty iff hash times difficulty is below 2^256 |
| `Shares.CandidateTable` | src/share_validation.cpp:22-45 | every record of the proof-of-work check in products: the hash, the two comparisons, and block, share or invalid |
| `Retarget.CalculateNextDifficulty` | include/zano_p2pool/sidechain_difficulty.hpp:65-164 | the program's loops and two successive selections compute the specified rule; it throws exactly for an unusable rule, zero network difficulty or a timestamp range above 2^32 - 1, and otherwise lies in [min(minimum, network), network] |
| `Retarget.TimestampDeltas` | include/zano_p2pool/sidechain_difficulty.hpp:97-110 | offsets from the oldest timestamp, refused exactly when two timestamps are more than 2^32 - 1 apart |
| `Retarget.SelectTimestamp` | include/zano_p2pool/sidechain_difficulty.hpp:112-128 | a selection on an already permuted offset vector still yields the true order statistic of the timestamps |
| `Retarget.RetainedWork` | include/zano_p2pool/sidechain_difficulty.hpp:136-157 | the loop finds the least and greatest work among retained samples, both attained |
| `Retarget.SplitIsOrderStatistic` | include/zano_p2pool/sidechain_difficulty.hpp:112-128 | an element that splits a sequence into smaller and larger parts is its k-th smallest |
| `Retarget.BandNonEmpty` | include/zano_p2pool/sidechain_difficulty.hpp:112-157 | the two cut timestamps are in order and the retained band is never empty |
| `Retarget.NextDifficultyPermutation` | include/zano_p2pool/sidechain_difficulty.hpp:65-164 | within the window only the collection of samples matters, not their order, including whether it throws |
| `RetargetLaws.SteadyPace` | include/zano_p2pool/sidechain_difficulty.hpp:65-164 | samples g seconds apart, each adding work d, give floor(d * target / g), raised to the minimum and cut off at the network difficulty |
| `RetargetLaws.OnTarget` | include/zano_p2pool/sidechain_difficulty.hpp:65-164 | at exactly the target pace the difficulty stays what each share added |
| `RetargetLaws.SlowPace` | include/zano_p2pool/sidechain_difficulty.hpp:65-164 | at a pace k times slower it drops to a k-th |
| `RetargetLaws.LongerTargetNeverLowers` | include/zano_p2pool/sidechain_difficulty.hpp:159-164 | on one history a longer target interval never lowers the difficulty |
| `RetargetLaws.StatisticByCounting` | include/zano_p2pool/sidechain_difficulty.hpp:112-128 | the selected timestamp, by counting: at most k are smaller and more than k are no larger |
| `RetargetLaws.BandCutsTenths` | include/zano_p2pool/sidechain_difficulty.hpp:112-128 | fewer than a tenth of the samples, rounded up, lie below the band, and as few above it |
| `RetargetLaws.RetargetInNumbers` | include/zano_p2pool/sidechain_difficulty.hpp:65-164 | the whole rule for any history, in timestamps, works and counts, without naming its parts |
| `RetargetLaws.NoHistory` | include/zano_p2pool/sidechain_difficulty.hpp:65-90 | without history the answer is the lesser of minimum and network difficulty |
| `ShareTree.DrainConcat` | src/share_chain.cpp:337-374 | recursive promotion of one list after another equals one work list; it ends because the orphan count falls |
| `TreeInvariant.ExpectedStable` | src/share_chain.cpp:117-160 | the difficulty a child must have depends on its ancestors alone |
| `TreeInvariant.OverflowUnreachable` | src/share_chain.cpp:297-307 | cumulative work never overflows 256 bits |
| `TreeInvariant.DrainKeepsRest` | src/share_chain.cpp:337-374 | promotion keeps the invariant at every point; without an exception it leaves exactly the rest of the list, with one it leaves an orphan whose check throws |
| `TreeInvariant.AddKeepsInv` | src/share_chain.cpp:376-432 | every addition keeps the invariant, and orphans are left unlisted exactly when promotion threw |
| `TreeInvariant.SubmitKeepsInv` | src/share_chain.cpp:434-516 | submission keeps the invariant whatever its outcome |
| `TreeInvariant.RevalidateKeepsInv` | src/share_chain.cpp:518-631 | revalidation keeps the invariant whatever its outcome |
| `TreeInvariant.RestoreKeepsInv` | src/share_chain.cpp:703-910 | restoring records keeps the invariant |
| `TreeInvariant.PruneKeepsInv` | src/share_chain.cpp:1010-1059 | pruning keeps the invariant |
| `TreeInvariant.ReachableInv` | src/share_chain.cpp:250-432 | in every state any run reaches: parents connected with heights one apart, work the parent's plus the share's own, no listed orphan beside its parent, validated shares with trusted record, exact expected difficulty and validated parent, and the tip the unique best |
| `Heaviest.ReachableTipIsHeaviest` | src/share_chain.cpp:250-260 | in every reachable chain no share has more cumulative work than the tip; at equal work none is higher; at equal work and height none has a smaller identifier |
| `Heaviest.StepTipIsHeaviest` | src/share_chain.cpp:250-335 | the same after any one operation |
| `Heaviest.PrunedTipIsHeaviest` | src/share_chain.cpp:1039-1055 | after pruning the tip is the heaviest, in that sense, of the shares that are not below the root |
| `Admission.StructuralTable` | src/share_chain.cpp:162-188 | the structural reason as a condition on version, difficulties, parent and height |
| `Admission.ContextTable` | src/share_chain.cpp:190-203 | the context reason: height, then header, then network difficulty; accepted iff all three are the share's own |
| `Admission.FutureTable` | src/share_chain.cpp:205-213 | refused iff more than 60 seconds ahead of the clock |
| `Admission.ParentTable` | src/share_chain.cpp:215-227 | accepted iff one above its parent and at most 60 seconds before it |
| `Admission.DifficultyTable` | src/share_chain.cpp:229-248 | accepted iff on a configured chain the difficulty is the one the branch demands |
| `Admission.ConnectTable` | src/share_chain.cpp:262-335 | when a share connects, is refused or throws, as conditions on its fields; the overflow case cannot occur |
| `Admission.AdmissionTable` | src/share_chain.cpp:434-488 | the checks before proof of work pass iff shape, context, clock, parent and difficulty are all right |
| `Admission.RefusalOrder` | src/share_chain.cpp:434-516 | the reason given for a refusal is the first that applies, and nothing changes |
| `Admission.NotAdmitted` | src/share_chain.cpp:434-516 | a submission that is not admitted changes nothing and is reported as duplicate or rejected |
| `Admission.DrainPromotes` | src/share_chain.cpp:337-374 | promotion leaves connected shares alone and adds only waiting orphans with their own records, each validated iff its difficulty was enforced, its record meets it and its parent is validated; the count is the number added |
| `Admission.AddTable` | src/share_chain.cpp:376-428 | every case of an addition: exception, duplicate, refusal, orphan, or a node with the share's own fields and work and the right flag, with count and tip report |
| `Admission.SubmitAdmits` | src/share_chain.cpp:434-516 | a submission changes the chain iff it is admitted: new, well shaped, height, header and network difficulty those of the context, at most 60 seconds ahead, following its parent, of the demanded difficulty and with hash times difficulty below 2^256; connected on a configured chain it is validated iff it is a root or its parent is validated |
| `TrustLaws.RevalidateTable` | src/share_chain.cpp:518-631 | every verdict on a connected share, in order, as conditions on its fields |
| `TrustLaws.RevalidateEffect` | src/share_chain.cpp:518-631 | only a share that revalidates changes: it becomes validated with its own record |
| `TrustLaws.RestorableIs` | src/share_chain.cpp:796-890 | a record may be restored iff it is finished, names a connected share, and either equals the record there or finds parent and difficulty right |
| `TrustLaws.RestoreExact` | src/share_chain.cpp:703-910 | all or nothing: when a restore is refused, and otherwise that exactly the named shares become validated, with their records and the right count |
| `Confluence.AddAllIsClosure` | src/share_chain.cpp:337-432 | adding shares unchecked in any order with any repetition ends in the least fixed point: tree, works, orphans and tip |
| `Confluence.ArrivalOrderIrrelevant` | src/share_chain.cpp:337-432 | two nodes that received the same shares in different orders hold the same chain |
| `Restart.ReplayRebuildsStructure` | src/share_chain.cpp:973-1008 | replaying the persistence snapshot rebuilds the same tree, works, tip and orphans with nothing validated, iff no orphan was stranded |
| `Restart.ReplayHeals` | src/share_chain.cpp:973-1008 | for every chain, a replay gives the closure of the stored shares: every connected share connected again at the same work, nothing validated, and no orphan stranded |
| `Restart.ExportNeverThrows` | src/share_chain.cpp:633-701 | the validation export of a configured chain never throws |
| `Restart.RestoreRoundTrip` | src/share_chain.cpp:633-910 | restoring an export into any chain that rebuilds the tree gives exactly the original validated shares and records and counts them; it throws, changing nothing, iff the all-zero identifier was validated |
| `Restart.RestoreIdempotent` | src/share_chain.cpp:703-910 | restoring the same export again into the chain the first restore produced changes nothing and reports zero |
| `Restart.RestoreIgnoresOrder` | src/share_chain.cpp:703-910 | the order of the records does not matter, neither for the result nor for refusal |
| `Restart.RestartRoundTrip` | src/share_chain.cpp:633-1008 | for every configured chain, stranded orphans or not: the export succeeds, the replay has every connected share at its work, restoring gives exactly the original validated set and records, and a second restore reports zero; it is refused, changing nothing, iff the all-zero identifier was validated |
| `Restart.RestartRestoresChain` | src/share_chain.cpp:633-1008 | if moreover no orphan was stranded, orphans and tip are the original ones too |
| `Agreement.ValidatedMeansChecked` | src/share_chain.cpp:518-701 | over every run with whatever restored records, a validated share has a consistent record meeting share difficulty, exactly the branch-expected difficulty and a validated parent, so the export cannot throw |
| `Agreement.RecordsStayGenuine` | src/share_chain.cpp:434-631 | if only genuine records are restored, every stored record is the locally computed one and its hash meets the share difficulty |
| `Agreement.NodesAgree` | src/share_chain.cpp:117-160 | any two reachable chains that hold a share agree on its ancestry, cumulative work and the difficulty of its children, unless two different shares among its ancestors have one identifier |
| `Agreement.StepsAgree` | src/share_chain.cpp:376-1059 | every operation only adds or only removes shares, never rewrites one, and never takes a validation back |
| `Agreement.BranchIsStable` | src/share_chain.cpp:117-160 | no step that keeps a share connected changes its ancestry, work or its children's difficulty |
| `Stranding.ConnectThrowsIff` | src/share_chain.cpp:337-374 | a connecting addition throws during promotion iff some waiting orphan whose route to it is acceptable has a throwing difficulty check |
| `Stranding.AddStrandsIff` | src/share_chain.cpp:376-428 | from a state without stranded orphans, an addition strands one iff it connects and such an orphan is reachable |
| `Stranding.NarrowNeverStrands` | include/zano_p2pool/sidechain_difficulty.hpp:102-110 | while no retarget window among connected, waiting and arriving shares spans more than 2^32 - 1 seconds, an addition throws only for a share without an encoding and strands no orphan |
| `Stranding.NarrowRunNeverStrands` | src/share_chain.cpp:337-432 | a run in which every arriving share keeps the branches that narrow never strands an orphan |
| `Clocks.EarlyNeverStrands` | include/zano_p2pool/sidechain_difficulty.hpp:102-110 | while the shares waiting for a difficulty check have timestamps a retarget window of one-minute steps below 2^32, no addition strands an orphan, and that stays so |
| `Clocks.EarlyRunNeverStrands` | src/share_chain.cpp:205-227 | a run strands no orphan if at each submission the clock plus one minute, plus one minute per share of the retarget window, is below 2^32, whatever shares arrive |
| `Stranding.StrandedOrphanReachable` | src/share_chain.cpp:346-366 | a three-step run from the empty chain that leaves an orphan beside its connected parent |
| `Pruning.PruneExact` | src/share_chain.cpp:1010-1059 | exactly the least child-closed set holding the root goes; the rest stays parent-closed, orphans untouched, tip the best of the rest |
| `Pruning.PruneAllExact` | src/share_chain.cpp:1010-1064 | pruning several roots in any order with repeats removes exactly the shares below any of them |
| `ShareChains.BetterStored` | src/share_chain.cpp:250-260 | the comparison on stored byte arrays is the numeric tip order |
| `ShareChains.ShareChain.CollectHistory` | src/share_chain.cpp:124-152 | the ancestor walk collects exactly the newest samples of the branch |
| `ShareChains.ShareChain.ExpectedChildShareDifficulty` | src/share_chain.cpp:117-160 | the expected difficulty of a child, or an exception for an unconfigured chain or unknown parent |
| `ShareChains.ShareChain.ConnectShare` | src/share_chain.cpp:262-335 | connects iff every check passes, with the specified node and tip; otherwise reports the first reason and changes nothing |
| `ShareChains.ShareChain.PromoteList` | src/share_chain.cpp:351-373 | the loop over a detached list, with recursion inside, computes the specified promotion and count |
| `ShareChains.ShareChain.PromoteChildren` | src/share_chain.cpp:337-374 | taking the list out of the index and promoting it is the specified promotion, also when it throws half-way |
| `ShareChains.ShareChain.AddPrevalidatedShare` | src/share_chain.cpp:376-428 | new state and result of an addition, including duplicate, orphan, rejection and exception |
| `ShareChains.ShareChain.AddShareUnchecked` | src/share_chain.cpp:430-432 | the same without difficulty enforcement or validation |
| `ShareChains.ShareChain.SubmitShare` | src/share_chain.cpp:434-516 | the checks in order, the proof-of-work check, and the addition |
| `ShareChains.ShareChain.RevalidateConnectedShare` | src/share_chain.cpp:518-631 | only a share that passes every check is changed, and only in its record and flag |
| `ShareChains.ShareChain.CollectSubtree` | src/share_chain.cpp:1023-1033 | the growing work list ends and lists the root and its descendants, each once |
| `ShareChains.ShareChain.SelectTip` | src/share_chain.cpp:1039-1055 | the scan finds the best of what remains |
| `ShareChains.ShareChain.PruneConnectedSubtreeIds` | src/share_chain.cpp:1010-1059 | the state is pruned as specified and the removed identifiers are returned in order |
| `ShareChains.ShareChain.PersistenceSnapshot` | src/share_chain.cpp:973-1008 | every connected and orphaned share, lowest first |
| `ShareChains.ShareChain.ReplayValidationSnapshot` | src/share_chain.cpp:633-701 | the records of validated shares in height order, or an exception iff one is inconsistent |
| `ShareChains.ShareChain.Preflight` | src/share_chain.cpp:796-890 | the height-ordered preflight pass accepts iff every record may be restored together with the others |
| `ShareChains.ShareChain.RestoreReplayValidation` | src/share_chain.cpp:703-910 | all or nothing: exactly the missing validations are installed and counted, or nothing changes |
| `Pplns.BuildPplnsWindowAtParent` | src/pplns.cpp:80-140 | the crediting loop computes the specified window, or throws for zero work, an ineligible share or conflicting payout keys |
| `Pplns.BuildSidechainPplnsWindowAtParent` | src/pplns.cpp:142-204 | the two passes compute the specified sidechain window |
| `Pplns.WorkIsBranchSum` | src/share_chain.cpp:262-335 | in every reachable chain cumulative work is the sum of the branch's difficulties, below 2^256, and the branch has one share per height |
| `Pplns.WindowExact` | src/pplns.cpp:80-140 | on every reachable chain the window exists iff the share may earn and no two credited shares show different payout keys for one miner (the conflict check at src/pplns.cpp:62-78); it covers the lesser of request and cumulative work, its rows add up to that, and only the oldest included share is partial |
| `Pplns.NoWindowMeansCollision` | src/pplns.cpp:62-78 | an entitled share has no window only if two shares of its branch show different payout keys that hash to one miner identifier |
| `Pplns.OnlyOldestPartial` | src/pplns.cpp:96-121 | every included share but the oldest is credited in full, older ones nothing |
| `Pplns.CreditsAddUp` | src/pplns.cpp:96-138 | the credits of all miners add up to the covered work |
| `Pplns.SidechainWindowExact` | src/pplns.cpp:142-204 | on every reachable chain the sidechain window exists iff the share may earn and its credited shares do not conflict; it is complete and includes at most the configured shares, so the bound check cannot fail |
| `Pplns.WindowsAgree` | src/pplns.cpp:80-204 | two nodes that hold a share and may pay from it compute the same windows, or both refuse, unless two different shares among its ancestors have one identifier |
| `Pplns.WindowIsStable` | src/pplns.cpp:80-204 | no operation that keeps the share connected changes its windows or its right to earn |
| `WindowLaws.CreditIsOwnWork` | src/pplns.cpp:96-121 | a miner is credited the difficulties of its own included shares, less what the oldest included share has beyond the request |
| `WindowLaws.WindowPaysBranch` | src/pplns.cpp:80-140 | every window on a reachable chain includes as few of the newest shares as reach the request, has one row per miner of them in order, and each row holds that miner's own work and the keys it shows |
| `WindowLaws.SidechainWindowPaysBranch` | src/pplns.cpp:142-204 | the same of the sidechain window, which asks for the work of the newest configured number of shares but at most a multiple of the network difficulty |
| `WindowLaws.SidechainWindowTable` | src/pplns.cpp:142-204 | refused for 0 or more than 31 shares, a zero multiplier, zero network difficulty, an unknown or unentitled parent; empty for no parent |
| `WindowLaws.HistoryIsBranch` | src/share_chain.cpp:124-152 | the retarget history is the newest shares of the branch, with their timestamps and the work up to each |
| `WindowLaws.ExpectedAtPace` | src/share_chain.cpp:117-160 | on a configured reachable chain whose newest shares of difficulty d came k times slower than the target, the next share must have difficulty floor(d / k), clamped |
| `Apportion.LeftoverBound` | src/pplns.cpp:266-297 | the floors leave fewer units than miners, made up of the remainders, so the leftover check cannot fail |
| `Apportion.AmountsAddUp` | src/pplns.cpp:262-314 | floors plus extra units add up to the reward exactly |
| `Apportion.WithinOneUnit` | src/pplns.cpp:262-314 | each amount is the floor of the exact quota or one more, and the floor when nothing remains |
| `Apportion.MoreWorkPaysNoLess` | src/pplns.cpp:262-314 | more work never pays less, equal work pays the smaller identifier no less |
| `Allocation.AggregateRows` | src/pplns.cpp:222-240 | one total per miner with work, or an exception iff payout keys are unbound or conflict |
| `Allocation.AllocatePplnsReward` | src/pplns.cpp:219-314 | the passes, the sort and the hand-out compute the specified allocation |
| `AllocationLaws.AllocationIsFair` | src/pplns.cpp:219-314 | every allocation that does not throw pays each miner with work once, within one unit of its quota, monotone in work, adding up to the reward; the extra units go to the largest remainders, among equal ones to the smaller identifiers |
| `AllocationLaws.AllocationIgnoresOrder` | src/pplns.cpp:219-314 | the order of the rows does not matter |
| `AllocationLaws.AllocationIgnoresSplit` | src/pplns.cpp:219-314 | nor does the way a miner's work is split over rows |
| `Coinbase.FeeIsFloor` | src/pplns_coinbase.cpp:9-46 | the stepwise fee is floor(amount * points / 10000), less than a positive amount, and its overflow checks never fire |
| `Coinbase.CollectDestinations` | src/pplns_coinbase.cpp:110-166 | the loop turns payouts into destinations and stops at the first problem, reporting it |
| `Coinbase.MakePplnsCoinbasePlan` | src/pplns_coinbase.cpp:50-238 | the plan for every window, with the status of every refusal; the sum mismatch statuses cannot occur |
| `Coinbase.ReadyIsPayable` | src/pplns_coinbase.cpp:50-238 | a ready plan has 1 to 32 nonzero, correctly bound destinations with distinct payout keys adding up to the reward |
| `PayoutPolicy.PassesPlanGate` | src/p2p_payout_policy.cpp:593-622 | the gate accepts exactly the payable plans for this reward |
| `PayoutPolicy.MatchDestination` | src/p2p_payout_policy.cpp:665-688 | the search finds the unique destination of an output, or reports which way it is not unique |
| `PayoutPolicy.CreditOutputs` | src/p2p_payout_policy.cpp:653-710 | the crediting loop reports the first complaint, or the exact credit of every destination |
| `PayoutPolicy.VerifyMinerTxPayoutPolicy` | src/p2p_payout_policy.cpp:562-726 | the status for every input; verified iff the plan is payable and each destination receives exactly its amount from outputs that match it alone |
| `PayoutPolicy.VerifiedMeansPaid` | src/p2p_payout_policy.cpp:653-725 | the verdict is verified iff the transaction pays as planned |
| `PayoutPolicy.HonestCoinbaseVerifies` | src/zano_miner_tx.cpp:126-137 | an honestly built coinbase of a payable plan, also one split for a single recipient, is verified iff one-time addresses tell its destinations apart at the outputs in use |
| `PayoutPipeline.PlanOnReachableChain` | src/pplns_coinbase.cpp:50-238 | for a window of a reachable chain no exception escapes, the statuses for an empty or incomplete window and for too many recipients cannot occur, nor a missing identity if every credited miner has shown payout keys, and the plan is ready iff there is a reward, every credited miner has shown keys and nobody is allocated zero |
| `PayoutPipeline.ShownBySomeShare` | src/pplns.cpp:62-78 | a miner has shown payout keys iff one of its credited shares carries them |
| `PayoutPipeline.VersionTwoPlan` | src/pplns_coinbase.cpp:50-238 | on a chain that admits only version 2 shares the plan is ready or refused for a zero payout; it is ready if everybody's quota of the reward after the fee is at least one unit, and only if there is a unit for everybody |
| `PayoutPipeline.HonestBlockVerifies` | src/p2p_payout_policy.cpp:562-726 | the honest coinbase of a ready plan can be built unless the reward is one unit, and is then verified iff one-time addresses tell its destinations apart |
| `PlanLaws.ReadyPaysEveryone` | src/pplns_coinbase.cpp:50-238 | a ready plan has for each miner of the window exactly one destination, under its own keys, with floor or floor + 1 of (reward - fee) * its work / all work, besides the fee if it is the operator's, and no other destination but the operator's with exactly the fee |
| `PlanLaws.VerifiedPaysEveryone` | src/p2p_payout_policy.cpp:562-726 | a verified transaction credits each miner of the window exactly that amount |
| `PlanLaws.PlanTable` | src/pplns_coinbase.cpp:50-238 | every refusal of a plan, in order, as conditions on parameters, window, reward and rows |
| `PlanLaws.FirstProblemIs` | src/pplns_coinbase.cpp:110-166 | the problem reported is that of the first miner, in identifier order, that has one |
| `PlanLaws.VerifierTable` | src/p2p_payout_policy.cpp:562-652 | every refusal before the outputs are looked at, in order |
| `PlanLaws.ComplaintIsFirst` | src/p2p_payout_policy.cpp:653-710 | a complaint about the outputs is about the first faulty one, and names its fault |
| `PayoutLaws.BlockPaysShares` | src/pplns_coinbase.cpp:50-238 | from shares to outputs: on every reachable chain a ready plan pays the miner of every included share floor or floor + 1 of (reward - fee) * the worth of its own shares / the covered work, under keys one of them shows, and nobody else but the operator its fee |
| `ShareCodec.DecodeEncode` | src/share.cpp:137-232 | decoding an encoded share returns it |
| `ShareCodec.EncodeDecode` | src/share.cpp:137-232 | whatever the decoder accepts is exactly the encoding of what it returned |
| `ShareCodec.EncodableIsSerializable` | src/share.cpp:137-180 | a share has an encoding iff version, payout keys and miner fit together, and of the size of its version |
| `ShareCodec.HashingIdentifies` | src/share.cpp:234-236 | two encodable shares with one identifier are equal, or their two encodings are a collision of the hash |
| `ShareCodec.DisagreementIsCollision` | src/share.cpp:234-236 | where two reachable chains may disagree about a share they hold, the encodings of two of its ancestors are a collision of the hash |
| `ShareCodec.HashingIdentifiesMiners` | src/share.cpp:126-135 | two pairs of payout keys with one miner identifier are equal, or their two preimages are a collision of the hash |
| `ShareCodec.NoWindowIsCollision` | src/share.cpp:126-135 | an entitled share has no window only if payout keys shown on its branch are a collision of the hash |
| `EncodingLaws.ShareHeader` | src/share.cpp:137-180 | an encoding starts with ZP2S and the version, and has 165 or 229 bytes |
| `EncodingLaws.ShareLayout` | src/share.cpp:137-180 | which bytes hold which field, in big-endian order: parent 5 to 37, height 37 to 45, timestamp 45 to 53, Zano height 53 to 61, header 61 to 93, nonce 93 to 101, difficulties 101 to 117 and 117 to 133, miner 133 to 165 |
| `EncodingLaws.PayoutLayout` | src/share.cpp:137-180 | the payout keys of version 2 lie at 165 to 197 and 197 to 229 |
| `ReplayStore.ParseSerialize` | src/replay_validation_store.cpp:173-260 | parsing the encoding of a valid snapshot returns it with its records sorted by identifier |
| `ReplayStore.SerializeParse` | src/replay_validation_store.cpp:316-481 | every byte string the parser accepts is the encoding of what it returned |
| `ReplayStore.SerializeSnapshot` | src/replay_validation_store.cpp:173-260 | the program sorts, checks and appends exactly the specified bytes, or throws iff the snapshot is invalid |
| `ReplayStore.ParseSnapshot` | src/replay_validation_store.cpp:316-481 | the offset-advancing parser accepts and returns exactly the specified snapshots |
| `EncodingLaws.RecordLayout` | src/replay_validation_store.cpp:234-250 | the 99 bytes of a record: identifier, final hash, mix hash, two flags, and 1 for a share or 2 for a block |
| `EncodingLaws.SnapshotLayout` | src/replay_validation_store.cpp:222-259 | magic, sidechain, checkpoint height and hash, count, records, and the digest of everything before it in the last 32 bytes |
| `EncodingLaws.RecordsInOrder` | src/replay_validation_store.cpp:189-250 | record number i in ascending identifier order lies at byte 88 + 99 * i |
| `ValidationCache.PersistReplayedValidationCache` | src/restart_recovery.cpp:77-179 | outcome and file contents for every input, including other sidechain parameters; the file is replaced only when saving is reported |
| `ValidationCache.RestoreReplayedValidationCache` | src/restart_recovery.cpp:30-75 | outcome and chain for every file, answer of the daemon and sidechain parameters |
| `ValidationCache.ReplayValidationStore.Save` | src/replay_validation_store.cpp:502-508 | the file becomes the encoding, or stays as it was when encoding throws |
| `ValidationCache.SavedMeansCovered` | src/restart_recovery.cpp:103-176 | bytes are written iff saving is reported, and then every validated share's work is covered by the agreed checkpoint |
| `ValidationCache.SavedIff` | src/restart_recovery.cpp:77-179 | the exact condition under which the cache of a chain with matching parameters is saved |
| `ValidationCache.CacheRoundTrip` | src/restart_recovery.cpp:30-179 | for every chain: save, restart, replay and restore bring every connected share back at its work with exactly the original validation while the checkpoint stands; with another block the replayed chain stays unvalidated, without a stable answer the call fails and changes nothing |
| `CacheLaws.StableExactly` | src/rpc_client.cpp:287-350 | a block hash is taken as stable iff both answers are for the height asked and name it, and it is not zero |
| `CacheLaws.PersistTable` | src/restart_recovery.cpp:77-179 | when saving is refused, and when it reports another canonical block, in terms of the two answers |
| `CacheLaws.PersistTooOld` | src/restart_recovery.cpp:77-179 | a checkpoint called too old leaves some validated share's work above it, and nothing is written |
| `CacheLaws.RestoreTable` | src/restart_recovery.cpp:30-75 | every outcome of restoring; the chain changes only if the file parses, both answers name the checkpoint's block and the records may be restored |
| `Recovery.JudgeIsLocal` | src/restart_revalidation.cpp:52-115 | the verdict on a share depends on it, its parent's flag and its ancestors only |
| `Recovery.StaysSettled` | src/restart_recovery.cpp:260-321 | once a share has had its turn, nothing later in the pass changes what would be found about it |
| `Recovery.RootsNotNested` | src/restart_recovery.cpp:260-330 | mismatch roots are never ancestors of one another, whatever the daemon answers |
| `Recovery.PruningSparesValidated` | src/restart_recovery.cpp:323-330 | recovery's pruning never removes a validated share |
| `Recovery.OnePassIsEnough` | src/restart_recovery.cpp:236-332 | a second run in which archive and daemon answer the same for the same proposal, at the same time, revalidates and prunes nothing, and throws only if the first did |
| `RecoveryLaws.VerdictTable` | src/restart_revalidation.cpp:5-115 | every finding about a share, in order, as conditions on the archive, its parent, the two answers and its fields |
| `RecoveryLaws.RootsExact` | src/restart_recovery.cpp:305-311 | a share is a mismatch root iff the parameters match, after the pass it is unvalidated and its parent validated or it is a root, its work is archived and readable, and the first answer is a parent mismatch |
| `RecoveryLaws.RecoveredExact` | src/restart_recovery.cpp:323-330 | recovery removes exactly the shares with such a share at or above them and leaves the rest as the pass left it |
| `RecoveryLaws.ValidatedExact` | src/restart_revalidation.cpp:52-115 | after the pass a share is validated iff it was before, or its parent is validated, its work archived and readable, both answers match and the chain's own checks pass |
| `RecoveryLaws.CountersExact` | src/restart_recovery.cpp:260-332 | each counter of a completed run is the number of shares it is about: validated before, validated now, without archived work, with an unvalidated parent, removed |
| `RestartRecovery.BuildWorkIndex` | src/restart_recovery.cpp:218-234 | for every archived work context, the smallest proposal that has it |
| `RestartRecovery.WorkIndexUnique` | src/restart_recovery.cpp:218-234 | the index does not depend on the order in which the archive is listed |
| `RestartRecovery.RevalidateRecoveredShare` | src/restart_revalidation.cpp:5-115 | every verdict, including other parameters, a missing share and an archive that cannot be read, and the chain afterwards |
| `RestartRecovery.RecoverShare` | src/restart_recovery.cpp:260-320 | one turn: verdict and effect, at most marking that share |
| `RestartRecovery.RecoverReplayedHistory` | src/restart_recovery.cpp:181-333 | with other parameters or an unreadable archive it throws and changes nothing; otherwise the pass and the pruning as specified over the index of the archive, each counter the number of turns with its verdict; on a later exception the turns so far stand and nothing is pruned |
| `RestartRecovery.SecondRunIsIdle` | src/restart_recovery.cpp:181-333 | after a call that completed, a second one under the same conditions completes with nothing revalidated, nothing pruned and the chain unchanged |
| `TrustedWork.RememberKeeps` | src/p2p_share.cpp:31-86 | remembering keeps every authorisation and known provenance, and the work is found again as given |
| `ReconcileLaws.RememberTable` | src/p2p_share.cpp:31-86 | remembering is refused iff the difficulty is zero or the key is filed with another difficulty or another known parent; otherwise only its own entry changes |
| `TrustedWork.P2pTrustedWorkRegistry.RememberWork` | src/p2p_share.cpp:35-86 | the registry after remembering, or unchanged with an exception for zero difficulty or a conflict |
| `TrustedWork.P2pTrustedWorkRegistry.EraseIf` | src/p2p_share.cpp:103-155 | the erasing loop keeps exactly the other entries and counts the erased ones |
| `TrustedWork.P2pTrustedWorkRegistry.EraseZanoHeight` | src/p2p_share.cpp:103-118 | exactly the entries at the height go |
| `TrustedWork.P2pTrustedWorkRegistry.EraseZanoHeightsAbove` | src/p2p_share.cpp:120-135 | exactly the entries above the height go |
| `TrustedWork.P2pTrustedWorkRegistry.EraseZanoParentMismatch` | src/p2p_share.cpp:137-155 | exactly the entries at the height with another recorded parent go |
| `Reconcile.SweepExact` | src/p2p_node.cpp:2243-2266 | pruning affected shares as the loop meets them removes exactly the affected shares and their descendants |
| `Reconcile.SweepOrderIrrelevant` | src/p2p_node.cpp:2222-2266 | whatever the order of iteration |
| `Reconcile.ReconcileParentExact` | src/p2p_node.cpp:2214-2282 | exactly the stale shares and their descendants go, and no conflicting registry entry survives |
| `Reconcile.ReconcileHeightExact` | src/p2p_node.cpp:2284-2332 | exactly the shares at the unavailable height and their descendants go, with every entry at it |
| `Reconcile.ReconcileAboveExact` | src/p2p_node.cpp:2334-2383 | exactly the shares above the ceiling and their descendants go, with every entry above it |
| `Reconcile.HandleKeepsInv` | src/p2p_node.cpp:2417-2529 | every protocol step, and every local submission into the shared chain, keeps the chain invariant, at most one payout expectation, and its nonzero parent connected |
| `Reconcile.RunKeepsPayout` | src/p2p_node.cpp:952-2529 | the same over every run of protocol steps and local submissions (src/stratum_submission.cpp:89-93) |
| `ReconcileLaws.ParentReplacedFields` | src/p2p_node.cpp:2214-2282 | a share goes iff it or an ancestor has work at the height that the registry knows to be built on another parent; which entries go; the expectation is forgotten iff a share went |
| `ReconcileLaws.HeightUnavailableFields` | src/p2p_node.cpp:2284-2332 | a share goes iff it or an ancestor has work at the height, an entry iff it is at the height; the expectation is forgotten iff anything went |
| `ReconcileLaws.AboveUnavailableFields` | src/p2p_node.cpp:2334-2383 | the same for heights above the ceiling |
| `ReconcileLaws.AnchorReplacedFields` | src/p2p_node.cpp:2417-2445 | a new anchor reconciles iff it replaces the parent at the height being mined, and then forgets the expectation in any case |
| `ReconcileLaws.PlanInstalledFields` | src/p2p_node.cpp:2461-2504 | an explicit plan parent is refused iff it is unknown or, on a configured chain, not validated; without one the plan is bound to the tip |
| `ReconcileLaws.PayoutSetFields` | src/p2p_node.cpp:2447-2529 | setting a payout or a plan replaces the other and binds it to the tip |
| `ReconcileLaws.ReplayProvedStaleFields` | src/p2p_node.cpp:952-993 | a branch proved stale goes with the expectation, but only if its root is not validated |
| `ReconcileLaws.ReceiveTable` | src/p2p_share.cpp:211-280 | every status of a received share, in order |
| `ReconcileLaws.ReceivedIsAuthorised` | src/p2p_share.cpp:211-280 | a share from a peer changes the chain iff the peer may send it, its work is in the registry and it is admitted there, and then the entry has its own height, header and network difficulty |
| `ReconcileLaws.ReceivedForgets` | src/p2p_share.cpp:211-280 | unless it ends in an exception, receiving a share forgets the expectation iff the tip moved |
| `ReconcileLaws.RunBrings` | src/p2p_share.cpp:211-280 | over every run, each stored share was there at the start or came in by an event: from a peer with a registry entry for exactly its own work at that moment, or submitted here on its own work, with a proof of work that meets its difficulty |
| `ReconcileLaws.RunFiles` | src/p2p_share.cpp:31-155 | over every run, each registry entry was there at the start or was remembered for the same work |
| `P2pNodes.P2pNodeProtocol.SweepInOrder` | src/p2p_node.cpp:2243-2266 | the loop that skips shares already gone computes the sweep and counts removals |
| `P2pNodes.P2pNodeProtocol.ReconcileCanonicalParent` | src/p2p_node.cpp:2214-2282 | new state and both counts |
| `P2pNodes.P2pNodeProtocol.ReconcileUnavailableWorkHeight` | src/p2p_node.cpp:2284-2332 | new state and both counts |
| `P2pNodes.P2pNodeProtocol.ReconcileUnavailableWorkAbove` | src/p2p_node.cpp:2334-2383 | new state and both counts |
| `P2pNodes.P2pNodeProtocol.ReplaceParent` | src/p2p_node.cpp:2417-2436 | a replaced parent at the mined height reconciles and drops the expectation |
| `P2pNodes.P2pNodeProtocol.SetLocalMiningContext` | src/p2p_node.cpp:2438-2445 | new state of the first overload |
| `P2pNodes.P2pNodeProtocol.SetLocalMiningContextWithPayout` | src/p2p_node.cpp:2447-2459 | new state of the payout overload |
| `P2pNodes.P2pNodeProtocol.SetLocalMiningContextWithPlan` | src/p2p_node.cpp:2461-2504 | new state of the plan overload; refused iff the given parent may not be paid from, and then only the reconciliation has happened |
| `P2pNodes.P2pNodeProtocol.SetExpectedPayout` | src/p2p_node.cpp:2506-2513 | one expectation, on the best tip |
| `P2pNodes.P2pNodeProtocol.SetExpectedPayoutPlan` | src/p2p_node.cpp:2515-2522 | one expectation, on the best tip |
| `P2pNodes.P2pNodeProtocol.ReceiveShare` | src/p2p_share.cpp:211-280 | every status and the new chain; the expectation goes when the tip moves |
| `P2pNodes.P2pNodeProtocol.PruneReplayedBranch` | src/p2p_node.cpp:952-993 | only an unvalidated replayed branch is pruned, and then the expectation goes |
| `Words.TopPowerOfTwo` | src/mining_header.cpp:307-311 | smearing and masking yields the largest power of two not above a 64-bit count |
| `TreeHash.HalveInPlace` | src/mining_header.cpp:323-328 | one in-place pass leaves exactly the hashes of neighbours, although it overwrites what it reads |
| `TreeHash.SlotsRoot` | src/mining_header.cpp:313-321 | direct leaves and pairs form a full level with the root of the recursive tree |
| `TreeHash.TransactionTreeHash` | src/mining_header.cpp:290-331 | for every number of transactions the in-place computation equals the recursive Merkle root, with every access in bounds |
| `TreeHash.RootInjective` | src/mining_header.cpp:290-331 | for a fixed count, equal roots mean equal leaves, or two different pairs hashed inside the two trees collide |
| `TreeHash.SmallRoots` | src/mining_header.cpp:290-331 | the roots of one to five leaves written out |
| `WorkRetrieval.AcceptFacts` | src/p2p_work_retrieval.cpp:230-255 | a well-formed response keeps its entry well-formed, follow-ups are well-formed, and a finished payload has the announced size and key |
| `WorkRetrieval.StoredIsComplete` | src/p2p_work_retrieval.cpp:230-255 | a stored payload has exactly the declared total and belongs to the requested key |
| `WorkRetrieval.RunBounded` | src/p2p_work_retrieval.cpp:171-255 | against any peers, in every run: at most 16 pending, 2 unfinished per peer, 8 received |
| `WorkRetrieval.HonestAnswer` | src/p2p_work_retrieval.cpp:216-229 | a peer that holds the record has a well-formed answer to every request of the transfer |
| `WorkRetrieval.HonestStep` | src/p2p_work_retrieval.cpp:216-255 | the next honest answer adds one chunk and asks for the next, or completes with exactly the archived bytes |
| `WorkRetrieval.HonestProgress` | src/p2p_work_retrieval.cpp:171-255 | an honest transfer progresses through any interleaving with other transfers |
| `WorkRetrieval.HonestTransfer` | src/p2p_work_retrieval.cpp:171-255 | it ends with exactly the archived bytes, after at most four answers |
| `WorkRetrieval.P2pWorkRetrieval.Begin` | src/p2p_work_retrieval.cpp:178-214 | refused, or one new entry, recycling the oldest finished one of a full table |
| `WorkRetrieval.P2pWorkRetrieval.Receive` | src/p2p_work_retrieval.cpp:230-255 | the tables and the result for every response |
| `WorkRetrieval.P2pWorkRetrieval.Expire` | src/p2p_work_retrieval.cpp:171-177 | exactly the live entries stay |
| `WorkRetrieval.P2pWorkRetrieval.TakeUntrusted` | src/p2p_work_retrieval.cpp:256-260 | a received payload is handed out once and forgotten |
| `RetrievalLaws.MessagesInNumbers` | src/p2p_work_retrieval.cpp:22-67 | offsets are 0, 16384, 32768 or 49152; payloads have 121 to 65536 bytes; every chunk but the last is full |
| `RetrievalLaws.ExpiryKeepsYoung` | src/p2p_work_retrieval.cpp:171-177 | expiry keeps exactly the entries started in the last 60 seconds |
| `RetrievalLaws.BeginTable` | src/p2p_work_retrieval.cpp:178-214 | a transfer starts iff the peer may serve it, the work is neither here nor under way from that peer, the peer has fewer than two active transfers, and there are fewer than 16 entries or a finished one |
| `RetrievalLaws.MakingRoom` | src/p2p_work_retrieval.cpp:200-211 | with 16 entries exactly one goes: the finished one that started first, then the first in key order |
| `RetrievalLaws.ResponseTable` | src/p2p_work_retrieval.cpp:230-255 | what each response does to its transfer, in order |
| `RetrievalLaws.ReceivedPayloads` | src/p2p_work_retrieval.cpp:248-253 | only a completed transfer changes the received payloads, and it drops the smallest key when eight are waiting |
| `BlockSubmitter.NonceIsPatched` | src/block_submitter.cpp:11-23 | patching changes the eight nonce bytes and nothing else, and they read back as the nonce |
| `BlockSubmitter.EvictedFacts` | src/block_submitter.cpp:89-97 | eviction ends, spares the newest header and leaves the bound or fewer |
| `BlockSubmitter.RememberKeepsInv` | src/block_submitter.cpp:78-98 | a remembered template is kept; a known header keeps its place, a full table drops the oldest |
| `BlockSubmitter.RunKeepsInv` | src/block_submitter.cpp:61-192 | in every interleaving the order lists the template keys once each, both bounds hold, and every blob has room for a nonce |
| `BlockSubmitter.RunFromRemembered` | src/block_submitter.cpp:78-192 | in every interleaving, every template, queued candidate and submission in flight carries a blob given to an earlier remember_template of its own header |
| `BlockSubmitter.NoDoubleSubmit` | src/block_submitter.cpp:141-192 | two successful submissions of one header are separated by a new remember_template of it, after the first was cleaned up |
| `SubmitterLaws.EnqueueTable` | src/block_submitter.cpp:100-124 | stopped, stale, full or queued with the template of its own header, in that order |
| `SubmitterLaws.NonceBytes` | src/block_submitter.cpp:11-23 | templates of fewer than 9 bytes are refused; otherwise bytes 1 to 8 become the nonce, least significant first, and nothing else changes |
| `SubmitterLaws.RetireClears` | src/block_submitter.cpp:159-169 | retiring removes exactly the header's template, order entry and queued candidates, and keeps the order of the rest |
| `SubmitterLaws.RunIsFifo` | src/block_submitter.cpp:100-192 | in every interleaving the daemon is handed candidates in the order they were queued, each with the template it was queued with, and none that was not queued |
| `BlockSubmitter.BlockCandidateSubmitter.EvictOldest` | src/block_submitter.cpp:89-97 | the eviction loop leaves the specified order and the templates it lists |
| `BlockSubmitter.BlockCandidateSubmitter.RememberTemplate` | src/block_submitter.cpp:78-98 | new state, or an exception for a blob without room for a nonce |
| `BlockSubmitter.BlockCandidateSubmitter.EnqueueCandidate` | src/block_submitter.cpp:100-124 | status and new queue |
| `BlockSubmitter.BlockCandidateSubmitter.WorkerWakes` | src/block_submitter.cpp:143-152 | the worker stops or takes the oldest candidate, whose blob can always be patched |
| `BlockSubmitter.BlockCandidateSubmitter.SubmissionReturns` | src/block_submitter.cpp:154-190 | a success leaves the header to be retired, a failure leaves everything else as it is |
| `BlockSubmitter.BlockCandidateSubmitter.RetireHeader` | src/block_submitter.cpp:159-169 | after a success the siblings, the template and its place in the order go |

## Left out

* Sockets, threads as operating-system objects, HTTP metrics, the Stratum server, JSON-RPC and `main.cpp`: input and output around the core.
* Keccak, ProgPoW, curve arithmetic and miner-transaction proofs: parameters of the model.
* Decimal difficulty text, hexadecimal text and status names: difficulties are numbers, and the rest is formatting.
* Parsing of block headers and miner transactions, and construction of the miner transaction beyond the single-recipient split: they follow Zano formats defined elsewhere.
* The envelope and handshake codecs, peer scores, backoff and seed nodes: easy members only. Retrieval messages are modelled after decoding.
* The deferred, retry and frontier caches of `P2pNodeProtocol::handle`: time-driven scheduling. `remember_trusted_work` is modelled by the registry operation it ends in, with any work and parent.
* Durability of files: a file is its contents, replaced as a whole. The mining-work archive is a list of proposals with their work contexts, or a failure to read it, and the meaning of a retrieved payload is a parameter.
* The daemon's audit of an archived proposal: its two answers per share, and whether the record can be read again, are explicit data. The candidate-mismatch status of recovery cannot occur, because the index finds work by the share's own context.
* The `Cursor` reader and varints of src/mining_header.cpp.
* Moving a record out of an orphan before the check that may throw (src/share_chain.cpp:357-366): the record of a stranded orphan is modelled as unchanged, as a moved-from plain value is.
* Retarget.NthElement: stands for `std::nth_element` and is implemented by sorting; its caller relies on the standard contract alone.

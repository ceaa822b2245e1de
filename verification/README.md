# A verified model of the subnet's engines

This project models the deterministic engines of a subnet that scores language models and divides an emission
between miners, operators and a burn address, and proves what the code promises of them. `dafny verify dfyconfig.toml`
checks everything.

| file | modules | models |
|---|---|---|
| Foundations.dfy | Prelude, Sorting, Strings, Sums, Reals, Integers, Dicts | results, stable sorting, the code point order of strings, facts about numbers, sums over lists and dicts |
| Merkle.dfy, Proofs.dfy, Receipts.dfy | Transcript, Proofs, Receipts | the Merkle tree over transcripts, its proofs byte by byte, and the receipts root |
| Auroc.dfy | Auroc | the area under the ROC curve by midranks |
| Journal.dfy, Session.dfy | JournalFile, Evaluation | the append-only journal and the run that resumes on it |
| Reporter.dfy | Progress | the progress reporter with its worker and settle barrier |
| Exclusion.dfy, ServingPools.dfy, Division.dfy | Exclusion, ServingPools, Division | dividing the emission between operators |
| Traffic.dfy | Traffic | what one operator's own traffic brings it and costs it |
| Emission.dfy, Weights.dfy | Emission, Weights | rank payouts, the pools combined, the serving split folded in |
| Quantise.dfy | ChainWeights | rounding weights to 16 bits |
| Plan.dfy | Planner | the GPU planner |
| Keeper.dfy | WeightsKeeper | burn, submit and refresh of the weights on chain |
| Verdicts.dfy | Verdicts | calibration and substitution verdicts |
| Stats.dfy, Publication.dfy | Wilson, Publication | the Wilson bound, the publication ladder, the standings |

How the parts outside the engines enter:

- A SHA-256 value is named by what was hashed, so hashing is injective and no text encodes as a pair of digests. In proofs it is
  32 bytes, each named by the whole input and its place, and texts are UTF-8.
- JSON is a pair of functions that read back what was written and never write a newline inside a value.
- A file is a sequence of bytes; a crash keeps any prefix of what was written.
- The chain, the metagraph, the model engine and the clock answer with parameters, so every answer and every failure is covered.
- Fractions and floats are exact reals; scores of the ladder are counted in millionths. The square root of the Wilson bound
  is a parameter that satisfies its defining equation.
- Threads are a state machine whose steps are the critical sections, in any order.
- Loops over dicts run in the order of their keys or in any order; the results do not depend on it.

Where the code does not do what is said of it, or does it only under a condition, the model follows the code:

- `docs/mechanism.md` says that a ladder keeps each miner's best. The code keeps a value within one step below the best; it is
  the best exactly when that score cleared the step as it came (`Publication.BestPublishedExactly`).
- A Merkle leaf hashes hotkey and transcript hash run together: roots bind exactly when all transcript hashes have one
  positive width (`Transcript.BindingCondition`).
- `check_proof` accepts inner nodes as well as leaves, and byte strings that are no nodes: exactly the beginnings and ends of
  what is hashed for a node besides (`Proofs.AcceptedExactly`). A leaf hash is accepted exactly if an entry spells its text
  (`Proofs.LeafAcceptedExactly`), so for transcript hashes of one width proofs are sound (`Proofs.ProofSoundness`).
- The receipts root does not tell all lists with repeated request ids apart (`Receipts.RootsAgreeExactly`,
  `Receipts.RepeatedReceiptUnseen`).
- A result published under the empty name is marked as in flight for ever (`Progress.EmptyNameStuck`).
- An operator with several coldkeys stands for the one its last row names, so the order of the rows can decide who is excluded
  (`Exclusion.OrderFreeExactly`).
- The dials must "exclude manufactured traffic", and in total the rebate does stay below the billing. A single operator can be
  paid more than it billed, because shares follow the scores and the largest takes what rounding leaves
  (`Traffic.LittleBilledMuchPaid`). It is certain to lose exactly if it is excluded or no amount short of all billing gives it
  more than its part of the billing (`Traffic.LosesExactly`): for the largest, if nobody else billed
  (`Traffic.LargestLosesExactly`); for any other, with more billed than scored in all, if its part of the scores is no larger
  than its part of the billing (`Traffic.OthersLoseExactly`).
- A substituted sample of another mode counts when separation is decided and cannot be convicted (`Verdicts.OtherModeEscapes`).
- A send whose block cannot be read afterwards is written down at block zero, like one that failed, so the
  refreshes within the gap are silent only if none of them is due from block zero (`WeightsKeeper.SilentAfterLanding`).
- The plan is stable exactly when the host lists each GPU once (`Planner.PlanStableExactly`); the planner does not ask for that.
- A burn that is sent while the process stops before the file is replaced goes out again (`WeightsKeeper.BurnsExactly`).
- Weights sent again at the very block of a chain step are sent once more for that step (`WeightsKeeper.SameStepAgain`).

## Model

| member | source | states |
|---|---|---|
| Transcript.LevelsOf | microtensor_subnet/core/transcript.py:382-392 | the level-by-level loop, an odd last node paired with itself, builds the levels of the tree |
| Transcript.TopIsRoot | microtensor_subnet/core/transcript.py:382-403 | the last level has one node, the root of the leaves |
| Transcript.LeavesInOrder | microtensor_subnet/core/transcript.py:395-396 | the leaves stand in the code point order of their hotkeys |
| Strings.LeExactly | microtensor_subnet/core/transcript.py:395-397 | the order in which names are sorted is that of their code points: a proper beginning first, otherwise the lower character where they first differ |
| Transcript.NoTwin | microtensor_subnet/core/transcript.py:386-390 | distinct nodes defeat the doubling of an odd last node: an odd level and an even one never have the same level above |
| Transcript.AboveInjective | microtensor_subnet/core/transcript.py:386-390 | a level of distinct nodes is fixed by the level above it, odd or even |
| Transcript.RootInjective | microtensor_subnet/core/transcript.py:382-403 | two lists of distinct leaves with one root are one list, whatever their lengths |
| Transcript.RootBinding | microtensor_subnet/core/transcript.py:395-403 | two maps of hotkeys to equally wide transcript hashes with one root are one map, whatever their sizes |
| Transcript.BindingCondition | microtensor_subnet/core/transcript.py:370-403 | over maps whose hash widths lie in a given set, roots bind if and only if that set allows a single positive width (the program uses 64) |
| Transcript.EmptyMapTwin | microtensor_subnet/core/transcript.py:399-403 | the case that fails with width zero: the empty map and one empty entry share a root |
| Transcript.ConcatenationTwin | microtensor_subnet/core/transcript.py:370-371 | the case that fails with two widths: hotkey and hash run together, so any single entry shares its root with a longer hash under the empty name |
| Transcript.VerifyLeafAgrees | microtensor_subnet/core/transcript.py:435-438 | with hashes of one positive width in both lists, a check of a shown list against the sealed root confirms an entry exactly when the list shown is the sealed one and has that entry |
| Proofs.SameBytesSameDigest | microtensor_subnet/core/transcript.py:370-379 | digests name their bytes: two nodes have the same 32 bytes if and only if they are the same node, so roots can be compared as texts |
| Proofs.MerkleProof | microtensor_subnet/core/transcript.py:406-418 | fails exactly for a hotkey without a leaf; otherwise the proof leads from its leaf to the root, at every tree size |
| Proofs.ProofClimbs | microtensor_subnet/core/transcript.py:412-418 | the siblings collected on the way up lead from any position to the root |
| Proofs.CheckProof | microtensor_subnet/core/transcript.py:421-432 | accepts exactly when leaf and steps can be read and lead to the root; leaf and partners are byte strings of any length |
| Proofs.AcceptedExactly | microtensor_subnet/core/transcript.py:421-432 | some proof is accepted for a byte string if and only if it is a node, or the beginning or the end of what is hashed for a node: the 64 bytes of two children, or hotkey and hash |
| Proofs.AcceptedByRoot | microtensor_subnet/core/transcript.py:399-432 | the same for the root of any map of transcripts, the empty one included |
| Proofs.NothingIsAccepted | microtensor_subnet/core/transcript.py:421-432 | every root accepts the empty byte string |
| Proofs.TextPrefixIsAccepted | microtensor_subnet/core/transcript.py:421-432 | every beginning of a leaf text is accepted, 32 bytes of it included, though it is no node of any tree |
| Proofs.ProofSoundness | microtensor_subnet/core/transcript.py:421-432 | a transcript hash as wide as the sealed ones, that width positive, is accepted under a hotkey with some proof if and only if the sealed map gives that hotkey that hash |
| Proofs.LeafAcceptedExactly | microtensor_subnet/core/transcript.py:370-432 | for any map, hotkey and transcript hash, of whatever widths: the leaf hash is accepted with some proof if and only if some entry spells the same text, hotkey and hash run together (or map and text are empty) |
| Proofs.VerifyLeafSound | microtensor_subnet/core/transcript.py:435-438 | whatever list of leaves is shown: what verify_leaf confirms is spelled by an entry of the sealed map, and is that very entry when its hash is as wide as the sealed ones |
| Receipts.ComputeRoot | microtensor_subnet/serving/receipts.py:44-53 | appending the last node to an odd level and pairing gives the root of the same tree as the transcripts use, for every list of receipts |
| Receipts.SortedById | microtensor_subnet/serving/receipts.py:44-46 | under the root the receipts stand in the code point order of their request ids, those of one id as they were listed |
| Sorting.SortStable | microtensor_subnet/serving/receipts.py:44-46 | sorting keeps the order of what ranks equal |
| Receipts.OrderFree | microtensor_subnet/serving/receipts.py:44-46 | with distinct request ids the order in which receipts are listed does not matter |
| Receipts.RootsAgreeExactly | microtensor_subnet/serving/receipts.py:44-53 | two lists have one root if and only if both are empty, or sorted by request id their trees are equally tall and hold the same receipt at every place once odd last nodes are doubled out |
| Receipts.SameRootSameMembers | microtensor_subnet/serving/receipts.py:44-53 | whatever the request ids, lists with one root count the same receipts, if not each as often |
| Receipts.RootFixesReceipts | microtensor_subnet/serving/receipts.py:44-53 | among lists without a repeated request id, two roots are equal if and only if the receipts are the same |
| Receipts.RepeatedReceiptUnseen | microtensor_subnet/serving/receipts.py:44-53 | with a repeated id it fails: an odd list and the same list with its last receipt repeated share a root |
| Auroc.Midranks | microtensor_subnet/validator/score.py:323-332 | the nested loops give every item 1/2 plus its wins over everybody, a tie counting one half |
| Auroc.BlockMidrank | microtensor_subnet/validator/score.py:327-331 | the middle of a block of ties is that rank for each of its members |
| Auroc.RankSumCountsPairs | microtensor_subnet/validator/score.py:333-334 | the rank sum of the positives, less n(n+1)/2, counts the pairs ranked the right way round |
| Auroc.Auroc | microtensor_subnet/validator/score.py:318-334 | the result is the share of positive over negative pairs, ties one half; 0.5 when a class is missing; an error on lists of different lengths |
| Auroc.ShareInUnit | microtensor_subnet/validator/score.py:318-334 | the area lies between 0 and 1 |
| Auroc.OrderOnly | microtensor_subnet/validator/score.py:318-334 | a strictly increasing transform of the probabilities leaves it unchanged |
| Auroc.AllTied | microtensor_subnet/validator/score.py:318-334 | it is 1/2 when all probabilities tie |
| Auroc.FlippedLabels | microtensor_subnet/validator/score.py:318-334 | exchanging the classes turns it into its complement to 1 |
| JournalFile.CrashRecovery | microtensor_subnet/validator/runner.py:515-556 | from any byte prefix of a journal, the same identity gets back exactly the rows whose whole line survived, and the file is cut to them |
| JournalFile.WholeFile | microtensor_subnet/validator/runner.py:515-547 | a file that was not cut is read back whole |
| JournalFile.OtherIdentity | microtensor_subnet/validator/runner.py:525-529 | another identity finds no row in any prefix and starts the file over |
| JournalFile.ReopenChangesNothing | microtensor_subnet/validator/runner.py:515-542 | whatever bytes are on disk, opening a second time changes neither file nor rows |
| JournalFile.AddedAreRead | microtensor_subnet/validator/runner.py:515-556 | whatever bytes were on disk, rows added after opening are read behind the rows found, and nothing is cut off again |
| JournalFile.AddContinues | microtensor_subnet/validator/runner.py:551-556 | adding to a recovered file gives the file of the rows kept and the row added |
| JournalFile.ScanMeaning | microtensor_subnet/validator/runner.py:516-541 | the loop over newlines stops where the good lines end and has exactly their rows, the last of each key |
| JournalFile.Journal.constructor | microtensor_subnet/validator/runner.py:509-513 | opening leaves the recovered file and its rows |
| JournalFile.Journal.Load | microtensor_subnet/validator/runner.py:515-542 | after it the dict is what opening the file again would find, and the file is cut to its good lines |
| JournalFile.Journal.ReadLines | microtensor_subnet/validator/runner.py:518-535 | the loop reads line by line and stops at the first line that is torn, foreign or no object |
| JournalFile.Journal.Take | microtensor_subnet/validator/runner.py:548-549 | the last row of the file whose own fields name this pool, condition and item, None exactly if no row does |
| JournalFile.Journal.Add | microtensor_subnet/validator/runner.py:551-556 | opening the file again finds the row behind those it held, and the dict keeps saying what that would find |
| JournalFile.AddedIsFound | microtensor_subnet/validator/runner.py:476-559 | on any bytes found on disk: a row with these three texts in its fields is what is found under them once it was added, now and after any later opening |
| Evaluation.PlanCountsRows | microtensor_subnet/validator/runner.py:1092-1180 | a run asks for exactly as many rows as the plan announces |
| Evaluation.PoolExactly | microtensor_subnet/validator/runner.py:199-207 | a pool has the items that carry its name, in their order, and no more than the limit, if there is one |
| Evaluation.KeyAskedExactly | microtensor_subnet/validator/runner.py:1100-1180 | which rows a run asks for, pool by pool and condition by condition: these and no others |
| Evaluation.OriginalsFirst | microtensor_subnet/validator/runner.py:1102-1104 | the original questions come first, in order, then their twins, in order |
| Evaluation.StagesInOrder | microtensor_subnet/validator/runner.py:1100-1180 | the six loops run one after the other |
| Evaluation.KeysForAllAt | microtensor_subnet/validator/runner.py:1123-1137 | condition by condition, item by item |
| Evaluation.Session.RunPools | microtensor_subnet/validator/runner.py:1100-1180 | the loops ask for the keys in their fixed order, each reused or produced once; the file grows by one line for each row produced |
| Evaluation.Session.One | microtensor_subnet/validator/runner.py:1064-1076 | one row: reused when the journal has it, otherwise produced, written and recorded |
| Evaluation.AnyDiskAnyRun | microtensor_subnet/validator/runner.py:1064-1180 | whatever bytes are on disk, a run that completes gives the keys in order, as many as planned; rows on disk are used unchanged and never executed, and no key is executed twice |
| Evaluation.ResumeEquivalence | microtensor_subnet/validator/runner.py:1064-1180 | however often and wherever the program dies, the life that completes leaves the transcript of an unbroken run |
| Evaluation.DurableOneLife | microtensor_subnet/validator/runner.py:551-556 | a row on disk whose bytes were synced is on disk unchanged after the next life |
| Evaluation.DurableForever | microtensor_subnet/validator/runner.py:551-1076 | a row read back once is read back unchanged in every later life, and no later life executes it |
| Progress.Reporter.DoPublish | microtensor_subnet/validator/progress.py:157-165 | publish as one critical section; a body of a settled miner or after close is dropped |
| Progress.Reporter.DoEnqueue | microtensor_subnet/validator/progress.py:183-213 | a note that is not throttled joins the bounded queue |
| Progress.Reporter.DoSettleBegin | microtensor_subnet/validator/progress.py:167-170 | settle up to its wait: the miner is marked and its queued result removed |
| Progress.Reporter.DoClose | microtensor_subnet/validator/progress.py:173-176 | close |
| Progress.Reporter.DoDrain | microtensor_subnet/validator/progress.py:215-231 | one round of the worker under the lock: results before notes, and it leaves only when nothing is queued |
| Progress.Reporter.DoSent | microtensor_subnet/validator/progress.py:237-245 | the end of a call, failed or not |
| Progress.WhenEnabled | microtensor_subnet/validator/progress.py:215-232 | the worker wakes exactly for a result, a note or the end |
| Progress.NoteJoins | microtensor_subnet/validator/progress.py:183-213 | a note joins behind the others, in the place of the oldest only when 256 wait |
| Progress.RunsGrow | microtensor_subnet/validator/progress.py:157-247 | the runs spoken of are all that critical sections can make from the start |
| Progress.StepKeepsInvariant | microtensor_subnet/validator/progress.py:157-245 | what every critical section keeps: settled miners have nothing queued, at most the call in flight is marked as sending, nothing accepted is lost |
| Progress.RunInvariant | microtensor_subnet/validator/progress.py:157-245 | it holds at every point of every interleaving |
| Progress.SettledStepsAside | microtensor_subnet/validator/progress.py:157-245 | in every step a settled miner is neither queued again nor newly put in flight |
| Progress.SettleBarrier | microtensor_subnet/validator/progress.py:167-171 | once settle has returned for a miner, in every continuation no partial result of it is queued, in flight or ever taken |
| Progress.SettleReturns | microtensor_subnet/validator/progress.py:167-171 | settle can return, at once or when the call in flight ends, if and only if the name is not the empty name of a result already taken |
| Progress.EmptyNameStuck | microtensor_subnet/validator/progress.py:222-231 | a result published under the empty name stays marked as in flight for ever, so settling it can only time out |
| Progress.WorkerExit | microtensor_subnet/validator/progress.py:215-228 | the worker leaves only when closed with both queues empty; nothing is queued afterwards and every accepted body not settled away was taken |
| Progress.SentWasAccepted | microtensor_subnet/validator/progress.py:215-247 | over any run, what is in flight or was last sent for a miner is a body accepted for that miner, and every note that went out was a note, or a body of the empty name |
| Progress.AllSentOnExit | microtensor_subnet/validator/progress.py:215-247 | once the worker has left, the last body accepted for every miner that was not settled is the last that was sent for it; that of the empty name went out as a note |
| Progress.FirstComeFirstServed | microtensor_subnet/validator/progress.py:149-232 | no step takes a result while another waits ahead of it, and nothing changes their order |
| Progress.OldestNoteFirst | microtensor_subnet/validator/progress.py:215-232 | with no result waiting the worker takes the oldest note that waits, and the others keep their order |
| Progress.ClosedDrains | microtensor_subnet/validator/progress.py:215-245 | after close nothing adds work, every step of the worker removes some, and it always has a step to take until it leaves |
| Exclusion.ExcludedOf | microtensor_subnet/serving/pools.py:178-198 | the team is excluded, and every operator of a coldkey but its leader; nobody else |
| Exclusion.OneSurvivor | microtensor_subnet/serving/pools.py:188-197 | of the operators that stand for a coldkey exactly one is left, the one of highest (total, name) |
| Exclusion.RowOrderFree | microtensor_subnet/serving/pools.py:178-198 | who is excluded does not depend on the order of the rows while no operator names two coldkeys |
| Exclusion.OrderFreeExactly | microtensor_subnet/serving/pools.py:178-198 | who is excluded does not depend on the order of the rows if and only if every operator that is not of the team has, for each coldkey it names, somebody above it that names only that one, or nobody above it that names any of them |
| ServingPools.Checked | microtensor_subnet/serving/pools.py:34-48 | exactly the dials of the five rules are accepted |
| ServingPools.ComputeShares | microtensor_subnet/serving/pools.py:270-286 | scores tallied, portions rounded down, the remainder to the largest (total, name) |
| ServingPools.LargestExactly | microtensor_subnet/serving/pools.py:285-286 | what rounding leaves goes to the highest total, of equal ones to the last name |
| ServingPools.SharesExact | microtensor_subnet/serving/pools.py:270-286 | with a positive score exactly the input is handed out, otherwise nothing; no share is negative |
| ServingPools.SharesProportional | microtensor_subnet/serving/pools.py:281-285 | everybody gets the proportion less at most one unit, and nobody but the largest gets more than it |
| ServingPools.ShareAtMost | microtensor_subnet/serving/pools.py:281-285 | nobody gets more than the proportion, save fewer units than there are operators, which rounding leaves to the largest |
| ServingPools.ComputeBounties | microtensor_subnet/serving/pools.py:201-219 | the reserve split over claimed digests, each digest over its winners |
| ServingPools.BountiesFit | microtensor_subnet/serving/pools.py:201-219 | bounties are positive, stay within the reserve and go only to claimants that are not excluded |
| ServingPools.BountyAtLeast | microtensor_subnet/serving/pools.py:212-218 | a claimant that is not excluded gets at least its even part of the digest |
| ServingPools.BountyExactly | microtensor_subnet/serving/pools.py:197-217 | to the unit, a bounty is the sum, over the digests the operator has a claim to, of its even part of that digest's even part of the reserve |
| ServingPools.WinnersExactly | microtensor_subnet/serving/pools.py:200-206 | a claim to a digest is a row of the operator that is first live on it, unless the operator is excluded |
| Division.Divide | microtensor_subnet/serving/pools.py:222-267 | fails exactly on a negative emission or a bounty share outside [0, 1/2]; otherwise the split has the amounts, exclusions, shares, bounties, floors and burn of the rules |
| Division.AmountsExactly | microtensor_subnet/serving/pools.py:236-244 | what is available, the ceiling, the rebate and the reserve of bounties are the whole units of their parts, and what is paid is the lesser of rebate and ceiling |
| Division.SplitExactly | microtensor_subnet/serving/pools.py:236-266 | the split says so: whole units available and serving, the sum of scores, and capped exactly if the rebate is over the ceiling by a unit |
| Division.Conserved | microtensor_subnet/serving/pools.py:236-266 | serving + modelling = available <= emission, shares + burned = serving, burned >= 0, no share negative |
| Division.AllTrafficLoses | microtensor_subnet/serving/pools.py:43-48 | taken together, what all operators are paid for traffic and the revenue share of what they billed stay strictly below what they billed |
| Traffic.LosesExactly | microtensor_subnet/serving/pools.py:43-286 | over all divisions of its rows (any emission, dials, floors, bounties) an operator that billed something loses by its own traffic, but for a given number of units, if and only if it is excluded or, of every amount short of all billing, its share less those units is no larger a part than its billing is of all billing |
| Traffic.LargestLosesExactly | microtensor_subnet/serving/pools.py:43-286 | the operator that takes what rounding leaves always loses, to the last unit, if and only if it is excluded or nobody else billed anything |
| Traffic.OthersLoseExactly | microtensor_subnet/serving/pools.py:43-286 | any other, where more was billed than scored in all, always loses if and only if it is excluded or its part of the scores is no larger than its part of the billing |
| Traffic.OwnTrafficLoses | microtensor_subnet/serving/pools.py:43-286 | whatever was billed and scored in all, scores in proportion to billing make every operator lose but for the units rounding leaves it |
| Traffic.LoneTrafficLoses | microtensor_subnet/serving/pools.py:43-286 | an operator that earns alone always loses, to the last unit |
| Traffic.LittleBilledMuchPaid | microtensor_subnet/serving/pools.py:270-286 | an input where it does not: shares follow the scores, so one that billed one and scored a million takes nearly the whole rebate of a million |
| Division.AllPaidOut | microtensor_subnet/serving/pools.py:241-253 | with nobody excluded all that is paid goes out, except reserve that no bounty used |
| Division.FloorsMet | microtensor_subnet/serving/pools.py:289-301 | every floor operator has its part of the pool to within a unit, or nothing is burned, and is never topped up past it |
| Division.FloorsByName | microtensor_subnet/serving/pools.py:288-303 | floors are granted in the order of names: nobody gets one while an earlier floor operator is a unit short |
| Division.GrantAllReaches | microtensor_subnet/serving/pools.py:292-300 | a floor operator ends at the larger of its share and its target unless the pool ran out, never above |
| Division.GrantAllBalances | microtensor_subnet/serving/pools.py:289-301 | floors move money from what is left into shares; none appears and none is lost |
| Division.ExcludedGetsOnlyItsFloor | microtensor_subnet/serving/pools.py:246-254 | an excluded operator earns no share and wins no bounty: its final share is its floor grant |
| Division.OneOperatorPerColdkeyIsPaid | microtensor_subnet/serving/pools.py:188-250 | of the operators of one coldkey only the leader has more than its floor |
| Emission.SchedulePays | microtensor_subnet/scoring/pools.py:29-34 | for every count and every schedule: empty exactly if nothing is taken or what is taken does not sum above zero; otherwise the first parts scaled to one, positive and falling if the schedule is |
| Emission.ScheduleInUse | microtensor_subnet/scoring/pools.py:17-34 | the schedule in use comes to one and is paid as it stands when all its ranks are |
| Emission.PaidTotal | microtensor_subnet/scoring/pools.py:42-47 | the whole schedule is paid if and only if no paid hotkey stands twice |
| Emission.PoolPays | microtensor_subnet/scoring/pools.py:37-47 | a pool pays nobody exactly when nobody is eligible with a positive score; otherwise it pays the whole exactly when the paid hotkeys are distinct |
| Emission.PaidByLastPlace | microtensor_subnet/scoring/pools.py:42-47 | in any pool a hotkey is paid for the last of its paid places, and more than another exactly if that place is the better one |
| Emission.BetterRankPaysMore | microtensor_subnet/scoring/pools.py:37-47 | with one standing a hotkey, the higher score, then the earlier commit, then the lower hotkey is paid more, and paid if the other is |
| Emission.PaidExactly | microtensor_subnet/scoring/pools.py:29-47 | with one standing a hotkey, what a hotkey is paid: the part of the schedule for the number of contenders that come before it, over the parts that are paid; nothing exactly if that number reaches the length of the schedule, or it is not eligible, or has no score |
| Emission.RankExactly | microtensor_subnet/scoring/pools.py:37-39 | hotkeys repeated or not, the ranking holds every eligible standing with a score as often as the pool does, and nobody stands behind one it beats |
| Emission.Combine | microtensor_subnet/scoring/pools.py:50-71 | the loop over the pools: payouts scaled to the pool, empty pools reported burned and sent to the burn address, then normalised |
| Emission.PoolsAdd | microtensor_subnet/scoring/pools.py:57-71 | before they are normalised, the weights of a hotkey are what the five pools add: its payout times the share of the pool, or the burn of a pool nobody contends in |
| Emission.BurnedPools | microtensor_subnet/scoring/pools.py:57-65 | reported burned, with the share of the pool, is exactly every pool nobody contends in |
| Emission.WithPoolsTotal | microtensor_subnet/scoring/pools.py:59-67 | the raw weights sum to what the pools hand out |
| Emission.HandedBounds | microtensor_subnet/scoring/pools.py:59-67 | a pool hands out at most its share; all of it with one standing a hotkey, or when it burns to an address |
| Emission.BurnsTotal | microtensor_subnet/scoring/pools.py:61-62 | the shares reported burned are those of the pools that pay nobody |
| Emission.NormalisedTotal | microtensor_subnet/scoring/pools.py:68-71 | normalising comes to one, and changes nothing that comes to one already |
| Emission.NormalisedExactly | microtensor_subnet/scoring/pools.py:68-71 | each weight over the total of them all, and none if that is not above zero |
| Weights.ServingFold | microtensor_subnet/validator/epoch.py:2108-2172 | the split of the settings, or of nothing at the default cap when one of them cannot be used, in parts of the whole: modelling part, burned part, and each operator with what it has, if anything |
| Weights.FoldExactly | microtensor_subnet/validator/epoch.py:2167-2173 | the parts times what is available are the numbers of the split, each its own |
| Weights.FoldedSplit | microtensor_subnet/validator/epoch.py:2144-2162 | the split that is folded is of the whole scale, its serving pool the part of the cap (one tenth when a setting cannot be used), and capped by the rebate of four hundredths |
| Weights.FoldConserves | microtensor_subnet/validator/epoch.py:2166-2172 | whatever was settled and however the serving block reads, operators, modelling and burn make up exactly the whole |
| Weights.FallbackBurns | microtensor_subnet/validator/epoch.py:2157-2161 | with an invalid setting the default serving pool is burned to the last unit |
| Weights.MinerModeWeights | microtensor_subnet/validator/epoch.py:2303-2317 | pooled weights scaled to the modelling part, operators added, the serving burn reported and sent where there is an address, then normalised |
| Weights.WeightsConserved | microtensor_subnet/validator/epoch.py:2303-2317 | with a burn address the folded weights sum to exactly 1 before they are normalised, for every set of standings and every split |
| Weights.WeightsWithoutAddress | microtensor_subnet/validator/epoch.py:2303-2317 | without one exactly the serving burn, and the modelling part if no pool pays, is missing; weights are empty only if nobody earns anything |
| Weights.WeightIsExact | microtensor_subnet/validator/epoch.py:2303-2317 | with one standing a hotkey and a burn address every weight is its pool pay scaled, its operator part and its burn: nothing is rescaled |
| Weights.WeightInNumbers | microtensor_subnet/validator/epoch.py:2303-2317 | with an address to burn to, each weight times the scale is the modelling part of the split, shared as the pools are and all of it handed out, plus what the operator has, plus what is burned |
| ChainWeights.Vector | microtensor_subnet/chain/weights.py:17-25 | a vector is built exactly when it is well formed |
| ChainWeights.Quantise | microtensor_subnet/chain/weights.py:56-75 | quotas, floors, the shortfall handed out by remainder and uid, zeros left out |
| ChainWeights.HeadIsFractional | microtensor_subnet/chain/weights.py:64-70 | the shortfall lies between zero and the number of uids and reaches only quotas that are not whole |
| ChainWeights.ValuesSumToTotal | microtensor_subnet/chain/weights.py:64-70 | the values sum to exactly the total |
| ChainWeights.FloorOrCeiling | microtensor_subnet/chain/weights.py:62-70 | each value is the floor or the ceiling of its exact quota |
| ChainWeights.VectorBuilt | microtensor_subnet/chain/weights.py:13-75 | for any positive total and some weight above zero the vector is built if and only if no uid below zero is left with a value and every value fits in 16 bits; then it sums to the total |
| ChainWeights.OrdinaryFits | microtensor_subnet/chain/weights.py:13-75 | so it always is for uids of at least zero and a total of 16 bits |
| ChainWeights.WithinOneUnit | microtensor_subnet/chain/weights.py:56-75 | on chain every uid with a weight above zero stays within one unit of its exact quota, its part of the sum of all weights above zero |
| ChainWeights.OrderKept | microtensor_subnet/chain/weights.py:65-70 | a strictly larger weight never gets less, and equal weights favour the lower uid |
| ChainWeights.LargestFractionsFirst | microtensor_subnet/chain/weights.py:63-70 | the units that rounding down leaves go to the largest fractions, on a tie to the lower uid |
| ChainWeights.VectorExactly | microtensor_subnet/chain/weights.py:56-75 | the vector lists uids in ascending order, only those with a weight above zero and a value above zero; it is empty exactly if there is no such weight or nothing to give, and otherwise comes to the total |
| ChainWeights.MassExactly | microtensor_subnet/chain/weights.py:57-59 | the quotas are taken over the sum of all weights above zero |
| ChainWeights.QuotaTimesMass | microtensor_subnet/chain/weights.py:62-62 | a quota is in the proportion of weight to sum |
| Planner.Assign | microtensor_subnet/serving/plan.py:192-225 | GPU by GPU the offer of least key, with running counts |
| Planner.MinByKey | microtensor_subnet/serving/plan.py:207-222 | the first offer none has a smaller key than |
| Planner.ChosenOver | microtensor_subnet/serving/plan.py:207-222 | the offer a GPU gets, against any other: the wished one if it can be had, then the higher demand per copy (half as much again for what is held), then what is held, then cold, then the smaller, then the lower name |
| Planner.ChoicesExactly | microtensor_subnet/serving/plan.py:199-224 | each GPU in turn gets its choice, given what it holds, what is wished for it and how many copies were placed before it |
| Planner.DivisorOptimal | microtensor_subnet/serving/plan.py:192-225 | with no wishes, demand per copy of every placed model is at least the demand of every usable one with one copy more, up to the margin 1.5; exactly, when nothing is held |
| Planner.PlacedOptimal | microtensor_subnet/serving/plan.py:192-225 | the same of the assignment returned, counting the GPUs that hold each model, when each GPU is listed once |
| Planner.StableExactly | microtensor_subnet/serving/plan.py:192-225 | assigning again from what was assigned assigns the same, for all offers of no negative demand, all holdings and preferences, if and only if every GPU is listed once |
| Planner.PlanStableExactly | microtensor_subnet/serving/plan.py:247-327 | planning again from what the plan wants holds the same, fetches and drops nothing and is not a change, for all inputs of no negative demand, if and only if the host lists every GPU once |
| Planner.RepeatedGpuTakesTurns | microtensor_subnet/serving/plan.py:192-225 | a GPU listed k times, k at least two, ends with another model on the second run than on the first |
| Planner.LosesOnlyAboveMargin | microtensor_subnet/serving/plan.py:207-222 | a usable held model without a wish loses its GPU if and only if some rival has more than 1.5 times the discounted demand of everything that would keep it |
| Planner.Build | microtensor_subnet/serving/plan.py:247-319 | filter, assignment, fetches and drops |
| Planner.PlanExactly | microtensor_subnet/serving/plan.py:291-317 | what a plan says of each GPU: it holds a usable row exactly if it is the host's and there is one, and is cleared exactly if it held something else |
| Planner.PlanInOrder | microtensor_subnet/serving/plan.py:307-319 | on a host that lists each GPU once, offers are fetched in the order of the GPUs that first need them, and GPUs are cleared in order of name |
| Planner.UsableExactly | microtensor_subnet/serving/plan.py:228-289 | a row can be used exactly if it names model and digest, is servable, fits pin, policy and licences, and the host can run it |
| Planner.Filter | microtensor_subnet/serving/plan.py:261-289 | exactly the rows that pass every test |
| Planner.FetchedOnce | microtensor_subnet/serving/plan.py:307-314 | every placed model that is not cached is fetched once, and nothing else |
| WeightsKeeper.Keeper.RememberWeights | microtensor_subnet/validator/epoch.py:2184-2195 | block and weights replaced, rounds added |
| WeightsKeeper.Keeper.Submit | microtensor_subnet/validator/epoch.py:2223-2236 | the weights are offered and written down, at block zero unless they landed and the head could be read |
| WeightsKeeper.Keeper.SubmitWeights | microtensor_subnet/validator/epoch.py:2239-2243 | a submission under the lock |
| WeightsKeeper.Keeper.BurnForRound | microtensor_subnet/validator/epoch.py:2246-2259 | nothing for a recorded round or without an owner, otherwise the burn is submitted |
| WeightsKeeper.Keeper.RefreshWeights | microtensor_subnet/validator/epoch.py:2262-2275 | kept weights are sent again when due; fails when the head cannot be read |
| WeightsKeeper.DueExactly | microtensor_subnet/validator/epoch.py:2211-2220 | kept weights are due a hundred blocks on, if the chain stepped no earlier than they were sent, or three hundred on if it cannot say |
| WeightsKeeper.LandedExactly | microtensor_subnet/validator/epoch.py:2223-2236 | weights land if some hotkey is known and the chain accepts; the block written down is the head then, and zero otherwise |
| WeightsKeeper.BurnExactly | microtensor_subnet/validator/epoch.py:2246-2259 | a burn offers the whole weight to the owner once and writes the round down |
| WeightsKeeper.RoundsOnlyGrow | microtensor_subnet/validator/epoch.py:2184-2195 | over any run recorded rounds only grow |
| WeightsKeeper.BurnsExactly | microtensor_subnet/validator/epoch.py:2223-2259 | over any run the burns for a round are those cut off between send and file while it was not recorded, and one more exactly if the call that recorded it was a burn; none once it was recorded; the same for burns the chain took |
| WeightsKeeper.BurnedOnce | microtensor_subnet/validator/epoch.py:2246-2259 | at most once if and only if no burn was cut off before it was recorded, or one was and no burn recorded it; always if no burn is cut off |
| WeightsKeeper.RefreshKeepsWeights | microtensor_subnet/validator/epoch.py:2262-2275 | no run of refreshes changes the kept weights or rounds, so a burn stays until something else is submitted |
| WeightsKeeper.QuietAfterSend | microtensor_subnet/validator/epoch.py:2211-2213 | no refresh sends anything for 100 blocks after a send was written down |
| WeightsKeeper.SilentAfterLanding | microtensor_subnet/validator/epoch.py:2211-2236 | after weights landed at a head, the refreshes of the next 100 blocks are silent if and only if that head could be read, or none of them is due from block zero |
| WeightsKeeper.ResendsKeepTheirDistance | microtensor_subnet/validator/epoch.py:2211-2272 | over any run every resend offers the weights written down last, at least 100 blocks past the block written down with them and not before a step of the chain at or after it, or 300 blocks past if the step cannot be read |
| WeightsKeeper.SteppedBetween | microtensor_subnet/validator/epoch.py:2211-2272 | with steps readable and blocks that never fall, between any send and a later resend the chain has stepped, no earlier than the block of that send |
| WeightsKeeper.FailedSendIsRetried | microtensor_subnet/validator/epoch.py:2211-2236 | a send that failed, or whose block could not be read, is made again by the first refresh from block 300 on while the chain step is unreadable, and by none before |
| WeightsKeeper.OncePerChainEpoch | microtensor_subnet/validator/epoch.py:2211-2272 | over any such run two resends see one step only if the earlier was written down at the very block of that step, and no three do |
| WeightsKeeper.SameStepAgain | microtensor_subnet/validator/epoch.py:2211-2220 | that exception occurs exactly so: refreshes that see the step of the last send send again if and only if it was written down at that block and the gap is over |
| Verdicts.Margins | microtensor_subnet/serving/verify.py:125-138 | fails exactly on rows and tokens that do not match; otherwise each gap is what the token lacks to the largest logit |
| Verdicts.SummaryBounds | microtensor_subnet/serving/verify.py:177-196 | rates lie in [0, 1], the mean margin is at most the largest, and all vanish exactly when no gap is over the tolerance |
| Verdicts.SummaryExactly | microtensor_subnet/serving/verify.py:177-196 | positions, gaps over the tolerance, their rate and mean over all positions; fails exactly on an unknown mode |
| Verdicts.LargestMarginExactly | microtensor_subnet/serving/verify.py:177-196 | the largest margin is the largest gap over the tolerance, zero exactly if there is none |
| Verdicts.ValueExactly | microtensor_subnet/serving/verify.py:33-44 | a sample is judged by its likelihood when sampled, otherwise by rate or mean margin; any other aggregate fails |
| Verdicts.QuantileBetween | microtensor_subnet/serving/verify.py:217-227 | the interpolated quantile lies between the two values around its position |
| Verdicts.QuantileExactly | microtensor_subnet/serving/verify.py:217-227 | the quantile stands between them in proportion to its position |
| Verdicts.ThresholdCounts | microtensor_subnet/serving/verify.py:240-243 | at most ceil(alpha (n - 1)) of n values lie above the threshold and at least floor(alpha (n - 1)) + 1 reach it |
| Verdicts.CalibrateExactly | microtensor_subnet/serving/verify.py:230-252 | when samples can be calibrated on, and what the calibration says of itself: mode, aggregate, level, number of honest samples, least substituted value |
| Verdicts.JudgeExactly | microtensor_subnet/serving/verify.py:256-299 | the verdict by mode, positions, value and threshold: cheat exactly above the threshold of a separating calibration of its mode, pass exactly at or below |
| Verdicts.CheatsExactly | microtensor_subnet/serving/verify.py:256-299 | each sample judged to cheat counts as one |
| Verdicts.FalsePositives | microtensor_subnet/serving/verify.py:230-299 | at most ceil(alpha (n - 1)) of the n honest samples of the calibration are judged to cheat, and the threshold is no higher than it must be |
| Verdicts.SeparatedExactly | microtensor_subnet/serving/verify.py:244-252 | separated if and only if some substituted sample is not empty and all that are not lie above the threshold |
| Verdicts.SubstitutionsCaught | microtensor_subnet/serving/verify.py:256-299 | a separating calibration convicts a substituted sample that is not empty if and only if it is of the mode of the calibration |
| Verdicts.UnseparatedConvictsNobody | microtensor_subnet/serving/verify.py:273-280 | without separation nothing is ever judged to cheat |
| Verdicts.FaithfulGreedyNeverConvicted | microtensor_subnet/serving/verify.py:177-299 | a greedy answer within the tolerance of the largest logits is never convicted |
| Verdicts.OtherModeEscapes | microtensor_subnet/serving/verify.py:244-264 | a substituted sample of another mode counts for separation and is unproven all the same |
| Wilson.WilsonIsLowerRoot | microtensor_subnet/scoring/stats.py:16-26 | the bound is the least root of (p - L)^2 = z^2 L (1 - L)/n, lies in [0, p], strictly inside when there is a success, and is never moved by clamping |
| Wilson.WilsonAnswers | microtensor_subnet/scoring/stats.py:16-20 | without trials the bound is zero; successes outside the trials fail; otherwise it lies in [0, 1] |
| Wilson.MoreSuccessesMore | microtensor_subnet/scoring/stats.py:16-26 | at fixed trials more successes have a strictly higher bound |
| Wilson.BoundIsLower | microtensor_subnet/scoring/stats.py:21-25 | centre less spread over 1 + z^2/n is the lower end of the score interval |
| Publication.NeverFalls | microtensor_subnet/scoring/stats.py:110-113 | over any run of epochs what is published never falls |
| Publication.WithinAStepOfBest | microtensor_subnet/scoring/stats.py:110-113 | after every epoch it is one of the scores seen, and the best of them is at most one step above it |
| Publication.AtMostNinetyNineChanges | microtensor_subnet/scoring/stats.py:110-113 | it changes at most 99 times however many epochs run |
| Publication.NinetyNineChangesHappen | microtensor_subnet/scoring/stats.py:110-113 | 99 changes do happen |
| Publication.BestPublishedExactly | microtensor_subnet/scoring/stats.py:110-113 | after any epoch the best score so far is what is published if and only if its first epoch was the very first, or it cleared the step over what was published just before |
| Publication.StandingsFor | microtensor_subnet/validator/score.py:579-600 | every score is listed once in its own pool at its published value; a score of an unknown pool fails |
| Publication.StandingExactly | microtensor_subnet/validator/score.py:575-600 | what a standing says: hotkey, eligibility and commit as they are, and what was published of the same artifact in the same pool unless the score clears it by more than the step |
| Publication.ListedExactly | microtensor_subnet/validator/score.py:586-600 | a pool lists the standings of its own scores in the order the scores come |
| Publication.RowsExactly | microtensor_subnet/validator/score.py:586-590 | every score of every hotkey is there, in its place |
| Publication.StandingsDistinct | microtensor_subnet/validator/score.py:586-600 | with one score a hotkey and pool, no pool lists a hotkey twice |

## Left out

- Docker, sandboxes, HTTP, wallets, the chain client, the command line and logging: input and output only.
- The internals of SHA-256, Ed25519, AES-GCM and JSON, and the hexadecimal spelling of bytes.
- Floating-point rounding and `round(..., DIGITS)`; on decimals at the very edge of a step or of a quota the floats of the code may differ.
- Bootstrap draws, `paired_lb`, `percentile`, sketches, fingerprints and tokenisers: they rest on random generators or foreign libraries.
- Fetching, container lifecycles, grading calls and report posting around the functions modelled of the validator.
- Weights.ServingFold: `cap_for`, `floors_for`, `arena_of`, `bounty_share_of` and reading the audit document enter as parameters, each with its failure.
- Weights.MinerModeWeights: the rounding to nine digits and the submission that follows are not part of it; WeightsKeeper has the submission.
- Emission.BetterRankPaysMore: asks for one standing a hotkey; what holds otherwise is Emission.PaidByLastPlace.
- `receipts.check`, `shaped`, `verify`, block windows and tickets: they would add only easy members.
- Emission.PoolPays: `pool_payout` and `combine` with other schedules or shares than the defaults, because no caller passes any.
- Planner.Build: the reasons and skipped offers of a plan, the order of its holdings and the parsing of catalogue rows are not modelled, because nothing is decided by them.
- Planner.DivisorOptimal: speaks of the running counts, because with a GPU listed twice the assignment has fewer; Planner.PlacedOptimal speaks of the assignment.
- Progress.Reporter.DoEnqueue: the throttle that may drop a note is not modelled, because it only makes a note not happen.
- Progress.SettleBarrier: speaks of a settle that returns without timing out; the clock is not modelled.
- `token_nll` and the sampled statistic's value: exponentials and logarithms; the value enters as a number.
- Evaluation.Session.RunPools: a produced row enters through a function from keys to rows that may give up; prompts, calls and retries are not modelled.
- Emission.Combine: for a hotkey that stands twice in a pool the last of its ranks counts, as in the code; for such pools only the totals are characterised, not each weight.

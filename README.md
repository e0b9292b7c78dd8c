# Sputnik medianizer: incremental weighted median over staked votes

This project models the medianizer of the Sputnik DAO staking contracts and proves properties of the model. The medianizer keeps a running **weighted median** of participants' votes. Each vote is a signed `i128` position, and its weight is the stake delegated to the voter. Each change of a vote or a stake is applied by one call to `rebalance`. That call updates an ordered ledger of distinct votes and their aggregated weights. It then moves a median pointer `k` and a cached prefix sum `sum_w_k` instead of rescanning the ledger.

Modules, one per part of the program:

- `Base`: `u128` and `i128`, and the saturating operations the source uses (`saturating_add`, `saturating_sub`, `i128::saturating_add`). It also has `x / 2` on `i128`, which truncates toward zero, and the abort outcome. A panic reverts the whole NEAR call. So every method that changes state either commits its whole new state or aborts and leaves the state as it was.
- `Ledger`: the votes `y` (strictly ascending) and weights `w`. It covers `binary_search` (`Locate` is the specification; `BinarySearch` is the loop), the upsert of the new vote and the decrement of the old one. `Weights` reads the ledger as a dictionary from vote to weight. The upsert and decrement are proved against that dictionary, with the round trips between them.
- `Walk`: the prefix sums, the reference weighted median (`WeightedMedian`, a full recomputation), and the two pointer loops of `rebalance` (`Shrink`, `Grow`). It states what each loop reaches when the cache is exact on entry. It also holds the corrected walk `Repair`.
- `Engine`: `WeightsData` and `rebalance`. The function `Step` is one call, stage by stage. The class `WeightsData` runs the call in place, and its `Rebalance` method is proved equal to `Step`. The lemmas cover what a call does to the ledger (`Tally`), the no-op and round-trip calls, concrete call sequences, and four concrete calls that break the pointer invariant `AtMedian` (the pointer on the weighted median with an exact cache).
- `Cache`: the cache `sum_w_k` against the prefix sums of the ledger. For each stage it proves how the weight through the pointer's vote changes, and when the source's patch matches that change. It ends with the corrected walk after the as-written stages re-establishing `AtMedian`.
- `Staking`: the staking contract's median, ledger and per-account votes, with `vote`, `on_stake_change`, `on_vote_change` and `rebalance`.
- `Medianizer`: the standalone medianizer contract (`new`, `rebalance`). Its `rebalance` is the same code as the staking contract's.
- `Delegation`: the DAO's delegation table (`get_user_weight`, `register_delegation`, `delegate`, `undelegate`). Its invariant is that the stored total equals the sum of the table.

Arithmetic: the source is taken to be built with Rust overflow checks on. Plain `+` and `-` on `u128`, and `k -= 1` on the `u32` pointer, therefore panic when out of range. These panics are modelled as aborts (`Overflow`, `PointerUnderflow`). Unguarded vector reads past the end (`w[k]`, `y[k]`, `y[k + 1]`) abort too.

Two behaviours of the code that a reader might expect otherwise:

- The exact-split average `(y[k] + y[k+1]) / 2` is Rust's `i128` division, which truncates toward zero. It is not a floor average (`Base.HalfTowardZero`).
- Withdrawing all the weight of the last vote does not leave a stale median behind. The entry is removed while `k` is 0, and `k -= 1` panics (`Engine.ScenarioWithdrawAll`).

## Model

| member | source | states |
|---|---|---|
| Base.SatAdd | sputnik-staking/src/lib.rs:269 | the exact sum when it fits in `u128`, else the largest `u128` |
| Base.SatSub | sputnik-staking/src/lib.rs:286 | the exact difference when it is not negative, else 0 |
| Base.SatAddI | sputnik-staking/src/lib.rs:319 | the exact sum clamped to the `i128` range |
| Base.HalfTowardZero | sputnik-staking/src/lib.rs:320 | half of the value, truncated toward zero: never further than 1/2 from the true half and on the side of 0 |
| Ledger.Locate | sputnik-staking/src/lib.rs:266 | `Found(i)` points at the vote; `Missing(i)` is the insertion point, every vote before it is smaller and the vote at it is larger |
| Ledger.LocateAscending | sputnik-staking/src/lib.rs:266 | on an ascending ledger, a vote is found exactly when it is present, and every vote after a missing vote's insertion point is larger |
| Ledger.LocateUnique | sputnik-staking/src/lib.rs:285 | any position with `Locate`'s properties is `Locate`'s, so the result of `binary_search` is fully determined |
| Ledger.BinarySearch | sputnik-staking/src/lib.rs:266 | the bisection loop returns exactly `Locate`'s position |
| Ledger.Weights | sputnik-staking/src/lib.rs:44-47 | the dictionary holds exactly the ledger's votes, each with its weight |
| Ledger.Upsert | sputnik-staking/src/lib.rs:265-279 | the ledger stays ascending with equal lengths; `added` holds exactly when the vote was absent; the vote is present afterwards |
| Ledger.UpsertMeaning | sputnik-staking/src/lib.rs:265-279 | as a dictionary: a present vote gains the stake (saturating; nothing changes for stake 0); an absent vote enters with the stake |
| Ledger.Decrement | sputnik-staking/src/lib.rs:284-289 | aborts exactly when the old vote is absent; a weight that reaches 0 removes its entry at the vote's index; otherwise the votes are unchanged |
| Ledger.DecrementMeaning | sputnik-staking/src/lib.rs:285-289 | as a dictionary: the vote loses the stake (saturating) and disappears when it reaches 0 |
| Ledger.UpsertThenDecrement | sputnik-staking/src/lib.rs:265-295 | adding and then taking back the same nonzero stake on the same vote restores the ledger, when there is no saturation and a present vote has a nonzero weight; a newly inserted vote is reported as removed at its insertion index |
| Ledger.UpsertThenDecrementDropsEmpty | sputnik-staking/src/lib.rs:265-295 | the same round trip on a present vote of weight 0 removes that vote: the round trip does not hold there |
| Ledger.UpsertZeroPresent | sputnik-staking/src/lib.rs:266-271 | a zero stake on a present vote leaves the ledger unchanged |
| Walk.SumToMonotone | sputnik-staking/src/lib.rs:42-43 | prefix sums of the weights never decrease |
| Walk.MedianIndexUnique | sputnik-staking/src/lib.rs:244-251 | at most one index has the weight before it below half the total and the weight through it at or above half |
| Walk.FirstReaching | sputnik-staking/src/lib.rs:244-251 | the reference scan returns the median index, or none when the whole ledger stays below half the total |
| Walk.Pick | sputnik-staking/src/lib.rs:317-321 | the vote at `k`, or on an exact split `HalfTowardZero(SatAddI(y[k], y[k + 1]))`, within 1/2 of the true average when the sum fits; aborts exactly when a read is past the end |
| Walk.WeightedMedian | sputnik-staking/src/lib.rs:244-251 | a defined median is the result rule applied at the median index |
| Walk.Shrink | sputnik-staking/src/lib.rs:307-310 | never moves the pointer right; stops at 0 or where dropping `w[k]` would fall below half; aborts only on a read past the end |
| Walk.Grow | sputnik-staking/src/lib.rs:312-315 | never moves the pointer left; ends with the cache at or above half, or aborts at the end of the ledger while still below half |
| Walk.GrowExact | sputnik-staking/src/lib.rs:312-315 | from an exact cache, the grow loop succeeds exactly when the ledger reaches half; it keeps the cache exact and stops at the first index that reaches half |
| Walk.ShrinkExact | sputnik-staking/src/lib.rs:307-310 | from an exact cache, the shrink loop never aborts, keeps the cache exact, and leaves the weight before `k` below half |
| Walk.ShrinkFindsMedian | sputnik-staking/src/lib.rs:303-310 | an exact cache at or above half on entry to the shrink loop ends at the weighted median |
| Walk.GrowFindsMedian | sputnik-staking/src/lib.rs:311-315 | an exact cache with the pointer at or left of the median ends at the weighted median |
| Walk.Repair | sputnik-staking/src/lib.rs:303-315 | the corrected walk (shrink, then grow) always ends with the cache at or above half |
| Walk.RepairFindsMedian | sputnik-staking/src/lib.rs:303-315 | from any exact cache, the corrected walk lands on the index the full recomputation finds, with an exact cache |
| Walk.PickAtMedian | sputnik-staking/src/lib.rs:317-321 | a pointer at the median index gives, through the result rule, the median a full recomputation gives |
| Engine.RemoveOld | sputnik-staking/src/lib.rs:284-295 | the decrement runs only for a real previous vote with nonzero stake; the ledger stays ascending |
| Engine.Settle | sputnik-staking/src/lib.rs:296-324 | the degenerate case keeps the median and clears the cache; otherwise the pointer ends inside the ledger and the new median is the result rule (`Pick`) at the final pointer, exact split judged by the final cache; the fault is never a missing vote |
| Engine.LedgerStage | sputnik-staking/src/lib.rs:265-295 | the staged ledger is ascending with equal lengths; it is the decrement applied to the upserted ledger, and the stage aborts for a missing vote exactly when that decrement does; the staged pointer is the shift of `k` for the removal, and the stage aborts with the pointer underflow exactly when that shift does |
| Engine.Step | sputnik-staking/src/lib.rs:261-325 | aborts on a length mismatch; sets the total; keeps the ledger ascending; keeps the median in the degenerate case; otherwise leaves `k` inside the ledger with the new median equal to the result rule (`Pick`) at `k`, exact split judged by the new cache |
| Engine.UpsertVotes | sputnik-staking/src/lib.rs:265-279 | the in-place upsert equals `Upsert` |
| Engine.DecrementVotes | sputnik-staking/src/lib.rs:284-289 | the in-place decrement (overwrite, then remove at 0) equals `Decrement` |
| Engine.ShrinkLoop | sputnik-staking/src/lib.rs:307-310 | the loop equals `Shrink` |
| Engine.GrowLoop | sputnik-staking/src/lib.rs:312-315 | the loop equals `Grow` |
| Engine.StageLedger | sputnik-staking/src/lib.rs:265-295 | the ledger stages on the vectors equal `LedgerStage` |
| Engine.PickVote | sputnik-staking/src/lib.rs:317-321 | the result rule on the vector equals `Pick` |
| Engine.SettleVotes | sputnik-staking/src/lib.rs:296-324 | the cache patch, walk and result rule on the vectors equal `Settle` |
| Engine.WeightsData.constructor | sputnik-staking/src/lib.rs:49-55 | an empty ledger with total, pointer and cache at 0 |
| Engine.WeightsData.Rebalance | sputnik-staking/src/lib.rs:253-326 | the fields become `Step`'s new data and the new median is returned; on abort the fields are unchanged; the ledger stays ascending |
| Engine.RemoveOldMeaning | sputnik-staking/src/lib.rs:284-295 | as a dictionary, the removal stage takes the old stake from the old vote, and aborts exactly when that vote is missing |
| Engine.LedgerStageMeaning | sputnik-staking/src/lib.rs:265-295 | the ledger stages do what `Tally` does to the dictionary, and abort for a missing vote exactly when `Tally` finds none |
| Engine.StepMeaning | sputnik-staking/src/lib.rs:261-325 | after a successful call the ledger is `Tally` of the previous one; a call aborts for a missing old vote exactly when `Tally` finds none |
| Engine.StepZeroStakeKeepsLedger | sputnik-staking/src/lib.rs:265-295 | a call with zero stakes on a present vote leaves the ledger unchanged |
| Engine.StepRoundTripKeepsLedger | sputnik-staking/src/lib.rs:265-295 | a call with the same vote and the same nonzero stake on both sides leaves the ledger unchanged, when there is no saturation and a present vote is nonzero |
| Engine.StepRoundTripAbsentUnderflows | sputnik-staking/src/lib.rs:284-292 | the same call on an absent vote while `k` is 0 always aborts: the vote is inserted and removed again, and `k -= 1` underflows |
| Engine.ScenarioFirstVote | sputnik-staking/src/lib.rs:253-326 | first vote 5 with stake 100 on the empty ledger gives [(5, 100)] and median 5 |
| Engine.ScenarioExactSplit | sputnik-staking/src/lib.rs:317-321 | a second vote 10 with stake 100 gives [(5, 100), (10, 100)] and the exact-split median 7 |
| Engine.ScenarioMove | sputnik-staking/src/lib.rs:253-326 | moving 50 from vote 5 to vote 8 gives [(5, 50), (8, 50), (10, 100)] and median 9, equal to the full recomputation |
| Engine.ScenarioWithdrawAll | sputnik-staking/src/lib.rs:288-292 | withdrawing all the weight of the only vote aborts on the pointer underflow |
| Engine.ShrinkBranchMissesMedian | sputnik-staking/src/lib.rs:303-310 | from a state satisfying `AtMedian` whose median is the vote at the pointer, a call that neither removes nor saturates ends with the cache below half and returns 5 where the weighted median is 10 |
| Engine.GrowBranchMissesMedian | sputnik-staking/src/lib.rs:311-315 | the mirror case: from a state satisfying `AtMedian` whose median is the vote at the pointer, a call that takes weight from a vote right of the median takes the grow branch, keeps `k`, and returns 5 where the weighted median is 3 |
| Engine.RightRemovalBreaksCache | sputnik-staking/src/lib.rs:290-292 | from a state satisfying `AtMedian`, removing the entry right of the pointer moves `k` left, leaves a cache of 100 over a prefix of 50, and returns 5 where the weighted median is 6 |
| Engine.SplitMedianBreaksCache | sputnik-staking/src/lib.rs:297-299 | from a state satisfying `AtMedian` with an exact-split median 7, a first vote 7 right of the pointer still joins the cache (200 over a prefix of 100), and the call returns 5 where the weighted median is 7 |
| Cache.SumToUpdate | sputnik-staking/src/lib.rs:269 | overwriting one weight changes exactly the prefixes containing it, by the difference |
| Cache.SumToInsert | sputnik-staking/src/lib.rs:274-275 | inserting a weight adds it to exactly the prefixes reaching past the insertion point |
| Cache.SumToRemove | sputnik-staking/src/lib.rs:288-289 | removing a weight takes it out of exactly the prefixes reaching past the removal point |
| Cache.SideOfMedian | sputnik-staking/src/lib.rs:297-300 | with the median at the pointer's vote, a vote is at or left of the median exactly when `binary_search` places it at or left of the pointer |
| Cache.UpsertKeepsCache | sputnik-staking/src/lib.rs:265-279 | after the upsert the pointer's vote sits at `k`, or at `k + 1` after an insertion at or left of it, and the weight through it grows by the new stake exactly when the new vote is at or left of the pointer |
| Cache.DecrementKeepsCache | sputnik-staking/src/lib.rs:284-289 | a decrement that keeps the entry leaves the votes alone and takes the old stake from the weight through the pointer exactly when the old vote is at or left of it |
| Cache.ShiftToVote | sputnik-staking/src/lib.rs:290-292 | the shift that keeps the pointer on its vote: one left for a removal left of it, none for a removal right of it |
| Cache.RemovalKeepsCache | sputnik-staking/src/lib.rs:288-292 | with that shift, a removal elsewhere keeps the pointer on its vote, and the weight through it loses the removed weight exactly when it lay left |
| Engine.ShiftPointer | sputnik-staking/src/lib.rs:290-292 | the pointer shift after a removal aborts exactly when the removed index is at or right of `k` while `k` is 0 (the `k -= 1` underflow on a u32) |
| Cache.ShiftPointerLeavesVote | sputnik-staking/src/lib.rs:290-292 | the shift as written moves the pointer off its vote after any removal elsewhere, or underflows |
| Cache.PatchAddExact | sputnik-staking/src/lib.rs:297-299 | with the median at the pointer's vote and no saturation, the cache after the new-stake patch is the weight through the pointer's vote in the upserted ledger |
| Cache.PatchSubExact | sputnik-staking/src/lib.rs:300-302 | with the same condition and an old stake below its vote's weight, the cache after the old-stake patch is the weight through the pointer's vote in the decremented ledger |
| Cache.PlainPatchExact | sputnik-staking/src/lib.rs:265-306 | both halves together: the walk starts on the median's vote with an exact cache |
| Cache.PatchCacheExact | sputnik-staking/src/lib.rs:265-306 | the same for the engine's own stages: `LedgerStage` succeeds without a removal, the walk's start pointer is on the median's vote, and `PatchCache` is the weight through it |
| Cache.StagesThenRepairFindMedian | sputnik-staking/src/lib.rs:261-321 | from a state whose median is the pointer's vote, a plain call's stages followed by the corrected walk (shrink, then grow) succeed whenever the ledger reaches half, re-establish `AtMedian`, and the result rule there gives the full recomputation's median |
| Cache.ShrinkBranchRepaired | sputnik-staking/src/lib.rs:303-315 | the call of `Engine.ShrinkBranchMissesMedian` is such a plain call, and the corrected walk ends on vote 10 with an exact cache of 163 |
| Cache.GrowBranchRepaired | sputnik-staking/src/lib.rs:303-315 | the call of `Engine.GrowBranchMissesMedian` is such a plain call too, and the corrected walk ends on vote 3 with an exact cache of 60 |
| Staking.StakeChangeEvent | sputnik-staking/src/lib.rs:216-218 | the stake change moves the account's stake from its previous to its new delegated amount on its own vote, with the DAO's total |
| Staking.TallyStakeChange | sputnik-staking/src/lib.rs:213-219 | as a dictionary, the account's vote gains the new stake and loses the previous one (saturating), and leaves the dictionary when it reaches 0 with a nonzero previous stake |
| Staking.StakeChangeMeaning | sputnik-staking/src/lib.rs:213-219 | on the ledger, a stake-change call never aborts for a missing vote, and a successful one leaves exactly that dictionary |
| Staking.VoteChangeEvent | sputnik-staking/src/lib.rs:224 | as written: the previous vote is passed as the new vote and the new vote as the old one, both with the account's stake |
| Staking.IntendedVoteChangeEvent | sputnik-staking/src/lib.rs:222-225 | corrected: the new vote gets the account's stake; the previous vote loses it, except the vote -1 of a first vote, which loses nothing |
| Staking.TallyFirstVoteSwapped | sputnik-staking/src/lib.rs:189-225 | as a dictionary, a first vote `v` with nonzero stake fails exactly when nobody holds `v`; otherwise the stake moves from `v` onto the vote -1 |
| Staking.FirstVoteSwapped | sputnik-staking/src/lib.rs:189-225 | on the ledger, such a first vote aborts when `v` is absent, and otherwise leaves -1 in the ledger |
| Staking.IntendedFirstVoteCounts | sputnik-staking/src/lib.rs:222-225 | with the corrected call, a first vote never aborts for a missing vote and adds the stake to `v` |
| Staking.TallyIntendedFirstVote | sputnik-staking/src/lib.rs:222-225 | as a dictionary, the corrected first vote adds the stake to `v` and takes nothing away |
| Staking.SentinelStakeAborts | sputnik-staking/src/lib.rs:296-321 | swapping the votes back while still taking the stake from the vote -1 aborts a first vote on the empty ledger (grow loop past the end) and a first vote right of a lone median (exact split past the end) |
| Staking.IntendedFirstVoteOnEmpty | sputnik-staking/src/lib.rs:222-225 | the corrected first vote on the empty ledger stores the single entry and the vote as median when the account holds more than half the total; it aborts with exactly half or less; with a total below 2 the median stays -1 |
| Staking.IntendedVoteChangeMoves | sputnik-staking/src/lib.rs:222-225 | with the corrected order, a vote change moves exactly the account's stake from the old vote to the new one |
| Staking.StakingContract.constructor | sputnik-staking/src/lib.rs:95-111 | median -1, an empty ledger and no votes |
| Staking.StakingContract.Rebalance | sputnik-staking/src/lib.rs:253-326 | the ledger and median become `Step`'s result; on abort nothing changes; the votes are untouched |
| Staking.StakingContract.Vote | sputnik-staking/src/lib.rs:189-211 | aborts on a wrong deposit or a non-positive vote; otherwise it records the vote and returns the (previous vote or -1, new vote) pair for the callback |
| Staking.StakingContract.OnStakeChange | sputnik-staking/src/lib.rs:213-219 | aborts for an outside caller; does nothing for an account without a vote; otherwise it applies the stake-change call |
| Staking.StakingContract.OnVoteChange | sputnik-staking/src/lib.rs:221-225 | aborts for an outside caller; otherwise it applies the vote-change call as written |
| Medianizer.MedianContract.constructor | sputnik-median/src/lib.rs:60-69 | the DAO account, median -1 and an empty ledger |
| Medianizer.MedianContract.Rebalance | sputnik-median/src/lib.rs:91-164 | the ledger and median become `Step`'s result; on abort nothing changes |
| Delegation.MapSumUpdate | sputnikdao2/src/delegation.rs:35-37 | setting one entry changes the sum of the table by the difference |
| Delegation.EntryAtMostSum | sputnikdao2/src/delegation.rs:48-53 | no entry exceeds the sum of the table |
| Delegation.Dao.GetUserWeight | sputnikdao2/src/delegation.rs:4-6 | the stored amount, 0 for an unregistered account, never above the total in a balanced table |
| Delegation.Dao.RegisterDelegation | sputnikdao2/src/delegation.rs:11-21 | aborts without a staking contract, for another caller, or on a wrong deposit; otherwise it sets the account to 0 without adjusting the total, and the table stays balanced exactly when the account held 0 |
| Delegation.Dao.Delegate | sputnikdao2/src/delegation.rs:23-39 | aborts without a staking contract, for another caller, for an unregistered account, or on overflow; otherwise it adds the amount to the account and the total and returns (previous, new, total); balance is preserved |
| Delegation.Dao.Undelegate | sputnikdao2/src/delegation.rs:41-55 | takes the amount from the account (0 when absent) and from the total, and returns (previous, new, total); it aborts when the account holds less; in a balanced table the total never underflows, and balance is preserved |

## Findings

| source | as written | input that shows it | evidently intended | confidence | as-written member | corrected member |
|---|---|---|---|---|---|---|
| sputnik-staking/src/lib.rs:303-315 | the side of the new vote chooses one loop: the shrink loop never moves `k` right, and the grow loop never moves it left, so a cache that the call leaves below half, or far above it, stays there | ledger [(3, 40), (5, 61), (10, 100)], total 201, `k` 1, `sum_w_k` 101, median 5; `rebalance(163, 2, 3, 40, 3)` stores median 5 and `sum_w_k` 63 below half (81), while the weighted median of [(3, 2), (5, 61), (10, 100)] is 10. Mirror: ledger [(3, 60), (5, 41), (10, 100)], same `k`, cache and median; `rebalance(111, 10, 10, 100, 10)` stores 5, while the weighted median of [(3, 60), (5, 41), (10, 10)] is 3 | for a call from a state whose median is the vote at `k`, that removes no entry and does not saturate: run both loops, shrink then grow, whichever side the new vote is on | high; not executed | Engine.ShrinkBranchMissesMedian | Cache.StagesThenRepairFindMedian |
| sputnik-staking/src/lib.rs:224 | `on_vote_change` passes `old_vote` as `new_vote` and `new_vote` as `old_vote`; swapping them back still takes the stake from the vote -1 at line 300 | first vote 5 with delegated stake 100 on an empty ledger: `rebalance(b.1, 100, -1, 100, 5)` panics because vote 5 is not in the ledger; `rebalance(100, 100, 5, 100, -1)` panics in the grow loop | `rebalance(balances.1, balances.0, new_vote, if old_vote == -1 { 0 } else { balances.0 }, old_vote)` | high; not executed | Staking.FirstVoteSwapped | Staking.IntendedFirstVoteOnEmpty |
| sputnik-staking/src/lib.rs:290-292 | after a removal, `k -= 1` runs when the removed index is at or right of `k`, and not when it is left of it | ledger [(5, 50), (8, 50), (10, 100)], total 200, `k` 1, `sum_w_k` 100, median 9; `rebalance(100, 0, 10, 100, 10)` removes vote 10, moves `k` to 0 with `sum_w_k` 100 over a prefix of 50, and stores 5 where the weighted median of [(5, 50), (8, 50)] is 6 | shift `k` left when the removed index is left of it, keep it when the index is right of it | high; not executed | Engine.RightRemovalBreaksCache | Cache.RemovalKeepsCache |
| sputnik-staking/src/lib.rs:297-300 | the side tests compare the votes with the stored median, which after an exact split is an average between the votes at `k` and `k + 1`, not the vote at `k` | ledger [(5, 100), (10, 100)], total 200, `k` 0, `sum_w_k` 100, median 7; `rebalance(300, 100, 7, 0, -1)` adds the stake of vote 7 to `sum_w_k` (200 over a prefix of 100) and stores 5 where the weighted median of [(5, 100), (7, 100), (10, 100)] is 7 | judge the side against the vote at `k`: the stake joins the cache exactly when its vote is at or left of `k` | medium; not executed | Engine.SplitMedianBreaksCache | Cache.UpsertKeepsCache |

The engine and the contracts keep the code as written, so the model describes the deployed behaviour. The corrected halves are proved beside it. `Walk.Repair` with `Cache.StagesThenRepairFindMedian` covers the walk, and `Cache.ShrinkBranchRepaired` and `Cache.GrowBranchRepaired` apply it to the first row's two calls; `Engine.GrowBranchMissesMedian` is the grow-branch half of that row. `Staking.IntendedVoteChangeEvent` with `Staking.IntendedFirstVoteOnEmpty`, `Staking.IntendedFirstVoteCounts` and `Staking.IntendedVoteChangeMoves` covers the callback; `Staking.SentinelStakeAborts` shows that swapping the votes alone is not enough. `Cache.RemovalKeepsCache` and `Cache.UpsertKeepsCache` (with `Cache.SideOfMedian`) cover the pointer shift and the side test. The stages as written are the functions `Engine.ShiftPointer` (lib.rs:290-292), `Engine.PatchCache` (lib.rs:296-302), `Engine.WalkPointer` (lib.rs:303-315) and `Cache.WalkStart` (the pointer the walk starts from); their behaviour is stated by `Cache.ShiftPointerLeavesVote`, `Cache.PatchCacheExact` and `Cache.PlainPatchExact`.

## Left out

- Promise plumbing and cross-contract calls (`ext_sputnik::get_delegation_balances`, `.then(...)` callbacks, gas) are not modelled. `Vote` returns the callback arguments, and the callbacks take the DAO's balances as parameters.
- Persistence (Borsh, `LookupMap`) is left out. The per-account votes and the delegation table are Dafny maps.
- The environment (`predecessor_account_id`, `current_account_id`, `attached_deposit`, `storage_byte_cost`) is passed in as parameters.
- The `#[private]` guard on `rebalance` as an external entry point is not modelled. `Rebalance` models the internal call made by the callbacks.
- Engine.WeightsData.Rebalance: `k` is an unbounded `nat`, so `k += 1` overflowing a `u32` is not modelled. It would need more than 2^32 ledger entries.
- Engine.Step: it requires the votes to be strictly ascending. `binary_search` is only determined on such a vector, and every call keeps it so (`WeightsData.Valid`).
- The rest of the staking contract (deposits, withdrawals, `users`, `storage_impl`, `user.rs`, `exchange_callback_post_withdraw`, token transfers) is not part of this model, and neither is the rest of the DAO (its constructor, proposals, policies).
- `test_xcc` in the standalone medianizer only logs a cross-contract result and is left out.
- Delegation.Dao.Undelegate: when the account holds less than `amount`, the call aborts at the subtraction on sputnikdao2/src/delegation.rs:49 (with overflow checks) before the assertion on line 50 is reached. The model reports `Overflow` rather than `ERR_INVALID_STAKING_CONTRACT`.
- Delegation.Dao: there is no constructor, because the DAO's initialisation is not part of this model. The balance invariant is therefore stated as preserved by each call rather than established from the start.
- Cache.StagesThenRepairFindMedian: the corrected walk is proved only for calls from a state whose median is the vote at the pointer (`AtVote`), that remove no entry and do not saturate (`Plain`). The removal and exact-split cases are corrected stage by stage (`Cache.RemovalKeepsCache`, `Cache.UpsertKeepsCache`), not composed into a corrected `rebalance`.

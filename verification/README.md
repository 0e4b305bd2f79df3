# Household finance: settlement, closes, ledger and budget

A Dafny model of the arithmetic and the state machines of a personal-finance back end, with proofs of what they
keep. Amounts are integers in units of 1e-8, the precision the database stores; a cent is 1,000,000 units. Every
request of the program that runs in one database transaction is one step; a rejected step changes nothing.

Four parts, each built on the ones before:

- **Settlement of a close.** `Money`, `FiniteSums`, `Allocation`, `Positions`, `Fx`, `Movements`, `MovementLaws` and
  `MovementBooks` take the posted transactions of a month to a physical position per account and member and an
  economic position per member. `Reserves`, `ReserveLaws`, `Targets`, `TransferPlan`, `Routing` and `DirectFund`
  turn them into transfers. The main result, in `Settlement`, reads from transactions and budget to bank: in a month
  whose accounts reconcile, the mismatch blocker is absent exactly when executing every recommended transfer leaves
  each account at its target.
- **Executions and closes.** `Execution`, `ExecutionRuns`, `ApplyAllRuns` and `ExecutionDesk` are the
  recommendations and their ledger links; `Calendar`, `MonthlyClose`, `CloseRuns` and `CloseOffice` are the closes,
  the settlement profile and the executions as one machine, with `Freezing` joining it to the settlement.
  `OfficeRuns` states what executions guarantee over runs of that machine, `SettlementChain` what its snapshots
  show.
- **Ledger.** `Ledger`, `QuickEntry`, `OpeningBalance` and `LedgerBook` are double entry with its validation and
  writers; `DailySeries`, `Pagination` and `BalanceAfter` are its fast forms, each against a recomputation.
  `SettlementLedger` carries the transactions of executions into it.
- **Budget.** `Distributions`, `PlanVsExecuted`, `PlanExecution` and `PlanLaws` spread plans over months and set them
  against what was executed, by month and by category.

Where the program updates dictionaries, rows or objects in place, a method or a class does the same and its contract
ties the result to a function of the inputs; what the program promises is proved about that function. Each component
keeps only the fields it reads, so the settlement fold, the executions and the ledger each have their own
transaction record; `SettlementLedger` relates the last two.

## What the proofs found

- `services_settlement_execution.py:29-30` quantises without naming a rounding, so a tie goes to the even cent there
  and away from zero everywhere else. `Execution.RoundingsAgree` says exactly on which amounts the two differ; half a
  cent is one.
- A transfer of at most half a cent can be reconciled and is then linked with amount zero, the tie going to the even
  cent (`services_settlement_execution.py:296-310`): `ExecutionRuns.ReconcilesNothing` for when exactly,
  `ApplyAllRuns.HalfCentReconciled` for a case.
- After a full reversal `apply_all` is carried out but applies nothing, because the full-application key is already in
  the ledger (`ApplyAllRuns.ReversalBlocksApplyAll`; `ApplyAllRuns.AppliedByAll` says exactly when it applies).
- `convert_currency_cached` is documented as like `convert_currency`, which alone rejects a direct pivot leg of rate
  zero; `Fx.CachedConversionAgrees` gives the exact condition and `Fx.ZeroLegDisagrees` a table.
- Finalizing a month below a READY close repeats the dates of its period, unless that period is empty because settlement
  only starts the day after the month. `CloseRuns.FinalizeTiles` has the exact condition for one finalize,
  `CloseRuns.DatesOnceIff` for runs, and `CloseRuns.OverlapReached` a run for each case.
- A small annual amount spread over many months can end with a negative last month: `Distributions.LastMonthNegative`
  gives the condition on the cents and the number of months, `Distributions.PlanGoesNegative` for any entry.
- An expense in a term without end year stops at its end month in its first year and then fills every later year
  (`Distributions.PlanMonths`); with an end year the plan is exactly the interval of the term.

## Model

| member | source | states |
|---|---|---|
| Money.RoundHalfUpIsNearest | backend/budget/services_settlement_preview.py:135-136 | quantising with ROUND_HALF_UP is the nearest multiple and the only one that also breaks ties away from zero, for every rational |
| Allocation.Allocate | backend/budget/services_settlement_preview.py:188-199 | the loop gives every member but the last its rounded quota and the last one the rest |
| Allocation.AllocatedSum | backend/budget/services_settlement_preview.py:188-199 | the shares add up to the amount exactly, whatever the rounding |
| Allocation.AllocatedOdd | backend/budget/services_settlement_preview.py:188-199 | allocating the opposite amount gives each member the opposite share |
| Allocation.AllocatedBounds | backend/budget/services_settlement_preview.py:188-199 | each share is within half a cent of its exact quota; the last one within half a cent for every earlier member |
| Allocation.AllocatedCents | backend/budget/services_settlement_preview.py:188-199 | whole cents are split into whole cents |
| Allocation.BuildMemberRows | backend/budget/services_settlement_preview.py:143-153 | the loop that serialises member balances computes rows whose last member absorbs the rounding |
| Allocation.MemberRowsSum | backend/budget/services_settlement_preview.py:143-153 | the stored rows are cents and add up to the account balance rounded once |
| Positions.OpeningCarry | backend/budget/services_settlement_preview.py:231-245 | a READY account with two or more members re-opens to exactly the balance its snapshot shows, even when its rows were rounded one by one; with one member it misses it by at most a cent, and matches exactly when both figures round alike |
| Positions.ReopenedShares | backend/budget/services_settlement_preview.py:231-245 | a residue below a cent per member is added to the share of the greatest member id; every other share re-opens as stored |
| Positions.SnapshotReopens | backend/budget/services_settlement_preview.py:229-247 | in the next opening position every account of a READY snapshot holds what the snapshot shows (to a cent with one member) |
| Positions.OpenPosition | backend/budget/services_settlement_preview.py:227-265 | the loops that rebuild the opening position from frozen rows or baseline rows leave every member total equal to the sum of its accounts |
| Positions.CaptureAccountOpening | backend/budget/services_settlement.py:774-817 | the balance captured at the baseline is split to the last 1e-8 and re-opens to exactly that balance |
| Positions.BaselineTotal | backend/budget/services_settlement.py:721-726 | opening adjustments leave the household total at the captured balances if and only if they add up to zero |
| Fx.DatabaseLookup | backend/core/services.py:399-423 | the two ordered queries find the latest rate not after the date, else the earliest one |
| Fx.BuildCache | backend/core/services.py:349-369 | one pass over the ordered rows builds, per pair, the descending series with its ascending date index |
| Fx.BisectRight | backend/core/services.py:390 | the insertion point of a date in the ascending index |
| Fx.IndexedLookup | backend/core/services.py:389-391 | the binary search on the index returns the rate the definition asks for, past the oldest rate included |
| Fx.ScanLookup | backend/core/services.py:393-396 | the linear scan of a hand-built list returns the same rate |
| Fx.CacheLookup | backend/core/services.py:372-396 | so a cache lookup is the database lookup on the rows it was built from |
| Fx.ConvertWithCache | backend/core/services.py:426-489 | direct, inverse or pivot conversion on the rates of the cache, in value and in refusal what the rates demand |
| Fx.ConversionIs | backend/core/services.py:82-163 | a conversion returns exactly what the rates alone demand, to the nearest cent with ties away from zero: the same currency rounded, a direct rate multiplied, an inverse one divided, the two legs of the pivot route each way, and each refusal when and only when it is due |
| Fx.CachedConversionAgrees | backend/core/services.py:82-163 | converting with a cache that covers both currencies and the pivot equals converting with the table, in value and in rejection, exactly when the pivot route has no direct leg of rate zero (only the uncached form rejects that) |
| Fx.ZeroLegDisagrees | backend/core/services.py:82-163 | a valid table with a direct leg of rate zero to the default pivot: the cached form converts to zero, the other one refuses |
| MovementBooks.RunningBooks.ComputeMovements | backend/budget/services_settlement_preview.py:613-795 | the loop over transactions leaves the in-place dictionaries, compensations and blockers at the fold of the step function over the whole list |
| MovementBooks.RunningBooks.PostTransaction | backend/budget/services_settlement_preview.py:636-794 | one transaction: wallet normalisation, physical split, skipped kinds, sweep, blockers, economic credit, in the order of the source |
| MovementBooks.RunningBooks.NormalizeWallet | backend/budget/services_settlement_preview.py:555-585 | a wallet normalisation only moves the normalisation deltas |
| MovementBooks.RunningBooks.CreditMembers | backend/budget/services_settlement_preview.py:770-794 | every member of the allocation or of the physical split is credited its economic share and compensated the difference |
| Movements.StepMemberGap | backend/budget/services_settlement_preview.py:588-795 | for each member, positions over all accounts plus compensations less the economic total: unchanged by economic and sweep transactions and by normalisations, moved by any other transaction by exactly its physical split |
| Movements.FoldMemberGap | backend/budget/services_settlement_preview.py:613-795 | the same over any list of transactions |
| Movements.FoldAccountGap | backend/budget/services_settlement_preview.py:653-693 | over any list the member positions of an account follow its physical delta, less only what had no resolved owner; exactly, when every entry is owned |
| Movements.FoldHousehold | backend/budget/services_settlement_preview.py:613-795 | physical total less economic total moves by what moved on the accounts less what was credited to members |
| Movements.InternalIsZeroSum | backend/budget/services_settlement_preview.py:695-708 | an internal transfer or a sweep between owned accounts moves nothing over all members |
| Movements.FoldFlows | backend/budget/services_settlement_preview.py:1123-1162 | over all members closing less opening is income less expense |
| Movements.FoldFlowsOfMember | backend/budget/services_settlement_preview.py:723-779 | and member by member when no transaction mixes income and expense |
| MovementLaws.FoldAdds | backend/budget/services_settlement_preview.py:613-795 | every figure of the books (balance, member position, normalisation, wealth, income and expense) moves over any list by the worth of the entries that concern it at their dates, debits in and credits out, split by the allocation of the owner of the account or of the transaction |
| MovementLaws.LocalFold | backend/budget/services_settlement_preview.py:613-795 | in the base currency with owned participants: every account moves by its debits less its credits, household wealth, income and expense by the classified entries of the transactions that credit members |
| MovementLaws.StepOwes | backend/budget/services_settlement_preview.py:695-794 | what a transaction compensates each member: its share of the classified net less its part of what moved, the opposite of what moved for a sweep, otherwise nothing |
| MovementLaws.FoldBlocks | backend/budget/services_settlement_preview.py:653-768 | a month is unblocked exactly when every transaction can be placed: entries with rates and allocations, transfers that stay within the participants, ordinary ones with an owner unless their classified entries cancel |
| Reserves.ComputeReserves | backend/budget/services_settlement_preview.py:798-984 | the loop over budget entries and the manual adjustment compute the requirements, rows and blockers of the step function |
| Reserves.DefaultDestination | backend/budget/services_settlement.py:293-341 | without a configured or linked account: 50/50 shared expenses only in an allocation account of the same owner, individual ones in the single primary account of their member, savings nowhere, the rest in the single operating account |
| Reserves.ReservesAddUp | backend/budget/services_settlement_preview.py:816-984 | what an account is required to hold over all members is what the rows set aside on it and did not already hold there, in cents, and only operating, personal or allocation accounts are required to hold anything |
| ReserveLaws.DestinationIs | backend/budget/services_settlement.py:293-341 | an expense goes to its configured account, else to that of its linked asset, else to the only account its owner and role allow, and nowhere when there is none or several |
| ReserveLaws.ReserveForIs | backend/budget/services_settlement_preview.py:816-957 | one expense adds one row with its converted amount on its destination and, unless it is held there already, its shares; or it blocks, exactly in the four cases of the source; or does nothing |
| ReserveLaws.RequirementIs | backend/budget/services_settlement_preview.py:816-984 | what next month requires of an account for a member is its part of every expense set aside there and not held there already, and of the manual adjustment on the single operating account; the budget blocks exactly when something cannot be placed |
| Reserves.ReservesFitRouting | backend/budget/services_settlement.py:260-341 | the destination rules discharge what routing needs: requirements only on participants, never negative on an allocation account, none on wallets, cards or investments |
| Reserves.BudgetReachesTargets | backend/budget/services_settlement_preview.py:1363-1600 | with the reserves as computed, executing the routed transfers leaves every account on target if and only if the physical total is the economic total |
| Settlement.SnapshotOpens | backend/budget/services_settlement_preview.py:227-249 | the position re-opened from a frozen snapshot is in cents, on participants, and gives every member the total of its accounts, as the month below needs |
| Settlement.LeaksAddUp | backend/budget/services_settlement_preview.py:653-794 | when every transaction is resolved, what moved on the accounts less what was credited to the members is, transaction by transaction, the cash of ordinary transactions beyond their classified income less expense; transfers, sweeps and normalisations add nothing |
| Settlement.UnblockedResolves | backend/budget/services_settlement_preview.py:653-768 | without blockers, and with an owner for every participant, every transaction of the month is resolved |
| Settlement.MismatchIff | backend/budget/services_settlement_preview.py:1405-1417 | once every account reconciles with its observed balance, the mismatch of the shown totals is an exact comparison of the two household totals |
| Settlement.MonthReachesTargets | backend/budget/services_settlement_preview.py:1240-1631 | a whole month, any transactions and any budget: with every account reconciled, the mismatch blocker is absent exactly when what moved is what was credited, and exactly when executing the routed transfers takes every account from the balance it shows to its target |
| Settlement.MonthFunds | backend/budget/services_settlement_preview.py:1240-1631 | without the mismatch blocker the transfers take an operating account, and any other that is nobody primary one, from the balance it shows to exactly what the budget of next month requires there, on top of its balance if that is kept |
| Settlement.BaselineOpens | backend/budget/services_settlement_preview.py:249-265 | an opening from captured balances in cents, however finely their members share them, meets what the next row needs |
| Settlement.MonthComesNear | backend/budget/services_settlement_preview.py:1240-1631 | with only the balances in cents, as right after activation, the mismatch blocker decides the same and in its absence the transfers bring every account within half a cent for itself and for every account of its target |
| Targets.ComputeTargets | backend/budget/services_settlement_preview.py:1564-1588 | the loops compute kept balances plus requirements plus each member residual on its primary account |
| Targets.TargetsAddUp | backend/budget/services_settlement_preview.py:1579-1588 | when every member is placed, each member targets add up to its economic total and the household targets to the economic total |
| Targets.RetainedTarget | backend/budget/services_settlement_preview.py:1566-1578 | a kept account is targeted its current balance plus what next month requires of it |
| Targets.TargetElsewhere | backend/budget/services_settlement_preview.py:1577-1588 | on an account that is not its primary one a member is targeted what next month requires there and, exactly on wallets, allocation accounts, cards and investments, what it holds there |
| Targets.SettlementFunds | backend/budget/services_settlement_preview.py:1577-1600 | when the household totals agree, executing the transfers leaves an operating account, and any other that is nobody primary one, with exactly its requirement, on top of its balance if that is kept |
| Targets.MembersTargeted | backend/budget/services_settlement_preview.py:1579-1588 | under the routing conditions each member is targeted exactly its economic total |
| Targets.SettlementReachesTargets | backend/budget/services_settlement_preview.py:1564-1600 | executing all routed rows leaves every account exactly at its target if and only if the household physical and economic totals agree |
| Targets.RetainedAccountsStay | backend/budget/services_settlement_preview.py:987-1092 | wallets, cards and investment positions appear in no row and allocation destinations are never a source |
| TransferPlan.RouteTransfers | backend/budget/services_settlement_preview.py:987-1092 | surplus, deficit and member deficits are built and walked to exactly the rows of the plan |
| TransferPlan.PlanReaches | backend/budget/services_settlement_preview.py:1023-1092 | every account ends with its net compensated if and only if surpluses and deficits are equal in total |
| TransferPlan.TransfersReachTargets | backend/budget/services_settlement_preview.py:987-1092 | for any positions and targets in cents on the participants, all accounts reach their targets if and only if the totals agree |
| TransferPlan.TransfersAttributed | backend/budget/services_settlement_preview.py:1074-1085 | when every member with a stake in a destination has a target there and amounts are cents, no unattributed row is emitted |
| TransferPlan.MemberNeedsAre | backend/budget/services_settlement_preview.py:1034-1043 | the members served at a destination are exactly those with a target there above their position, each for what it lacks in cents |
| TransferPlan.RowsLabelled | backend/budget/services_settlement_preview.py:1044-1092 | every routed row goes to an account below its target with the owner of that account, and either names a member that lacks something there with the reason of the account role, or goes unattributed to the member of the account |
| Routing.Route | backend/budget/services_settlement_preview.py:1046-1092 | the two-pointer loop over the slots updated in place terminates with the rows of the walk |
| Routing.Serve | backend/budget/services_settlement_preview.py:1053-1085 | one meeting serves the members of a destination in order, each up to its need, and the rest unattributed |
| Routing.AccountFlows | backend/budget/services_settlement_preview.py:1046-1092 | for every account, what rows take out of it plus what it still has above target never changes, and likewise for what they bring in |
| Routing.MovesTheMinimum | backend/budget/services_settlement_preview.py:1046-1092 | the rows move exactly the smaller of total surplus and total deficit |
| Routing.NeverOverdrawn | backend/budget/services_settlement_preview.py:1046-1092 | no source is overdrawn and no destination overfilled |
| Routing.DrainsAndFills | backend/budget/services_settlement_preview.py:1046-1092 | sources end drained and destinations filled if and only if the totals agree |
| Routing.MembersNotOverfilled | backend/budget/services_settlement_preview.py:1054-1073 | no member need is overfilled |
| Routing.RowCount | backend/budget/services_settlement_preview.py:1046-1092 | at most sources plus destinations less one plus open member needs rows |
| Routing.RowsPositive | backend/budget/services_settlement_preview.py:1053-1085 | every row moves a positive amount |
| Routing.NeverUnattributed | backend/budget/services_settlement_preview.py:1074-1085 | the fallback row is never emitted when the members of each destination need at least what it lacks |
| DirectFund.RecommendDirectly | backend/budget/services_settlement_preview.py:1488-1541 | the loop over fund members emits one row per non-zero rounded difference |
| DirectFund.RowsSettleMembers | backend/budget/services_settlement_preview.py:1488-1541 | each direct row settles one member: what is available beyond its requirement goes to its primary account for its owner, what is missing comes from there for the owner of the fund |
| DirectFund.FundMeetsObligation | backend/budget/services_settlement_preview.py:1464-1549 | executing the direct rows leaves the operating account with its requirement plus the debt of its cards, exactly in cents if and only if the compensations of its members are zero-sum, within half a cent per member from sub-cent positions |
| Settlement.MonthMeetsObligation | backend/budget/services_settlement_preview.py:1464-1549 | the direct branch from transactions: in a resolved month, when compensated members have a stake in the fund and a primary account, the operating account ends with exactly its obligation if and only if economic transactions moved, all together, their classified income less expense |
| Freezing.TransfersExecutable | backend/budget/services_settlement_preview.py:1046-1092 | every routed row moves a positive number of cents between different accounts |
| Freezing.DirectExecutable | backend/budget/services_settlement_preview.py:1508-1541 | and so does every direct row |
| Freezing.RoutedCloseIsGood | backend/budget/services_settlement_preview.py:1728-1745 | what is frozen with a close, on the ledger accounts of the settlement accounts, is what the execution invariant needs of a fresh recommendation |
| Freezing.FrozenEffect | backend/budget/services_settlement_preview.py:1728-1745 | on the ledger account of a settlement account the frozen rows move exactly what executing the recommended ones adds to it |
| Freezing.SettledAtTheBank | backend/budget/services_settlement_execution.py:503-592 | from recommendation to bank, over any run of the office without reversals: after a carried-out apply-all the transfers linked to a READY close add to the ledger account of every settlement account what executing the recommendations adds to it |
| Execution.ToCentsEven | backend/budget/services_settlement_execution.py:29-30 | this module quantises with the default rounding: nearest cent, identity on cents |
| Execution.RoundingsAgree | backend/budget/services_settlement_execution.py:29-30 | it agrees with rounding ties away from zero except exactly on the ties whose even cent is the one nearer to zero; half a cent is one |
| Execution.StepKeeps | backend/budget/services_settlement_execution.py:166-537 | every request keeps the invariant: 0 <= applied <= amount, applied is the signed sum of linked transactions, status is the function of applied amount and acceptance unless cancelled with nothing applied, keys are unique, links are transfers of their amount |
| Execution.RunKeeps | backend/budget/services_settlement_execution.py:166-537 | so it holds after every run of requests from a fresh close |
| ExecutionRuns.ApplyEffect | backend/budget/services_settlement_execution.py:204-293 | applying adds what was asked, or all that remains, never beyond the amount |
| ExecutionRuns.ReconcileEffect | backend/budget/services_settlement_execution.py:370-408 | reconciling adds exactly the matched amount of the chosen transfer, which is posted, unlinked, of the same owner and dated in the window of the close |
| ExecutionRuns.ReverseEffect | backend/budget/services_settlement_execution.py:426-499 | reversing takes back what was asked, or everything, keeps the acceptance, and posts one transfer of exactly that from the destination back to the source |
| ExecutionRuns.ApplyPosts | backend/budget/services_settlement_execution.py:245-293 | applying posts one transfer of exactly what it applies from the source to the destination, and touches no other account |
| ExecutionRuns.AcceptIff | backend/budget/services_settlement_execution.py:167-177 | accepting succeeds exactly on a recommendation of this READY close that may still change, and then posts nothing and leaves the applied amount alone |
| ExecutionRuns.ApplyIff | backend/budget/services_settlement_execution.py:179-262 | an apply is carried out exactly when a positive amount within what remains is asked between usable accounts under a fresh key; only the whole remainder needs no client key |
| ExecutionRuns.ReverseIff | backend/budget/services_settlement_execution.py:426-480 | a reversal exactly when a positive amount within what is applied is asked under a fresh key |
| ExecutionRuns.AppliedAgain | backend/budget/services_settlement_execution.py:192-243 | repeating an apply under a used key, even when nothing remains, is answered as done if the key was used for this recommendation and refused if for another |
| ExecutionRuns.ReversedAgain | backend/budget/services_settlement_execution.py:437-466 | so is repeating a reversal, even when nothing is left to take back |
| ExecutionRuns.ReconcileIff | backend/budget/services_settlement_execution.py:296-395 | a reconciliation exactly for a posted, unlinked transfer of the same owner, dated in the window, that takes out of the source to the cent what it brings into the destination, within what remains |
| ExecutionRuns.StatusMeans | backend/budget/services_settlement_execution.py:93-103 | in every reachable state the status says how far a recommendation is applied and, while nothing is, whether it was accepted |
| ExecutionRuns.AcceptedForever | backend/budget/services_settlement_execution.py:167-176 | what was accepted, by itself or by being applied or reconciled, stays accepted through any run |
| ExecutionRuns.CancelledAfter | backend/budget/services_settlement_execution.py:412-422 | a carried-out cancellation leaves the recommendation cancelled with nothing applied for the rest of the run |
| ExecutionRuns.ReconcilesNothing | backend/budget/services_settlement_execution.py:296-310 | a reconciled transfer leaves the applied amount unchanged exactly when it takes at most half a cent out of the source account |
| ApplyAllRuns.HalfCentReconciled | backend/budget/services_settlement_execution.py:370-408 | the concrete case: a transfer of exactly half a cent is linked with amount zero and the recommendation accepted |
| ExecutionRuns.CancelledForever | backend/budget/services_settlement_execution.py:70-74 | a cancelled recommendation never changes again in any run |
| ExecutionRuns.KeysActOnce | backend/budget/services_settlement_execution.py:219-243 | once an apply or reverse request was carried out, repeating its key at any later point of any run changes nothing |
| ExecutionRuns.LinkedTransferMoves | backend/budget/services_settlement_execution.py:296-310 | a linked two-entry transfer in cents takes its signed amount from the source and brings it to the destination |
| ExecutionRuns.AppliedIsMoved | backend/budget/services_settlement_execution.py:246-293 | at any point of any run the linked plain transfers have changed the source by minus the applied amount and the destination by the applied amount |
| ApplyAllRuns.AppliedByAll | backend/budget/services_settlement_execution.py:503-537 | a carried-out apply-all brings a listed recommendation to its full amount if and only if it was there already or its full-application key was unused |
| ApplyAllRuns.ReversalBlocksApplyAll | backend/budget/services_settlement_execution.py:213-227 | the concrete run that shows it: apply-all, full reversal, apply-all again leaves nothing applied |
| ApplyAllRuns.ApplyAllFinishes | backend/budget/services_settlement_execution.py:503-537 | after any run without reversals a carried-out apply-all leaves every recommendation not cancelled APPLIED and calling it again changes nothing |
| OfficeRuns.ServedMoves | backend/budget/services_settlement_execution.py:246-293 | the same conservation at any point of any run of the whole office, from a household without closes: linked plain transfers have moved exactly the applied amount |
| OfficeRuns.ServedKeysActOnce | backend/budget/services_settlement_execution.py:219-243 | a used key changes nothing later even when closes were reopened and finalized again in between |
| OfficeRuns.ServedCancelled | backend/budget/services_settlement_execution.py:70-74 | in any run of the office a cancelled recommendation stays as it is until a reopen deletes it, and never comes back |
| OfficeRuns.ServedFinishes | backend/budget/services_settlement_execution.py:503-537 | in any run of the office without reversals a carried-out apply-all finishes its close and repeats as a no-op |
| OfficeRuns.ClosePaysOut | backend/budget/services_settlement_execution.py:503-592 | over any run of the office without reversals: after a carried-out apply-all the plain transfers linked to a READY close, none of whose recommendations was cancelled or deleted, move on every ledger account exactly what its previewed rows bring in less what they take out |
| OfficeRuns.ReconcilesInWindow | backend/budget/services_settlement_execution.py:296-395 | in the office a transfer is reconciled exactly with a standing recommendation of a finalized READY close when it is posted, unlinked, of the same owner, dated from a week before that month ends to the end of the next, and moves to the cent one amount within what remains |
| SettlementLedger.PostsQuickTransfer | backend/budget/services_settlement_execution.py:245-271 | what an execution posts is exactly the transaction of an accepted quick transfer between the two ledger accounts |
| SettlementLedger.AppliedShowsInBalances | backend/budget/services_settlement_execution.py:114-137 | in any run of the office the posted balance the ledger reports of the source is lower, and that of the destination higher, by exactly the applied amount than without the linked plain transfers |
| ExecutionDesk.MatchingTransferAmount | backend/budget/services_settlement_execution.py:296-310 | one pass over the entries finds the amount both sides agree on |
| ExecutionDesk.Desktop.Accept | backend/budget/services_settlement_execution.py:167-176 | updates the recommendation in place as the accept step says |
| ExecutionDesk.Desktop.Apply | backend/budget/services_settlement_execution.py:204-293 | key checks, amount checks, posting and new status in the order of the source, as the apply step says |
| ExecutionDesk.Desktop.Reconcile | backend/budget/services_settlement_execution.py:370-408 | links the candidate and raises the applied amount as the reconcile step says |
| ExecutionDesk.Desktop.Cancel | backend/budget/services_settlement_execution.py:412-422 | as the cancel step says |
| ExecutionDesk.Desktop.Reverse | backend/budget/services_settlement_execution.py:426-499 | as the reverse step says |
| ExecutionDesk.Desktop.ApplyAll | backend/budget/services_settlement_execution.py:502-537 | one database transaction over the listed recommendations; the first rejection undoes all of it |
| Calendar.MonthsAbut | backend/budget/services_settlement_preview.py:160-161 | a month ends the day before the next one starts, leap years included |
| Calendar.KnownStarts | backend/budget/services_settlement_preview.py:160-161 | dates count from the first of January of year one: January 2024 starts on day 738886 |
| Calendar.KnownFebruaries | backend/budget/services_settlement_preview.py:160-161 | February has 29 days in every fourth year but in centuries only every four hundred years |
| MonthlyClose.ServeKeeps | backend/budget/services_monthly_close.py:919-1032 | every request (finalize, reopen, lock, execution, profile, other ledger movements) keeps the invariant of closes, profile and executions together |
| MonthlyClose.ServedKeeps | backend/budget/services_monthly_close.py:919-1032 | in every run a draft close has no totals and no settlement, a close that opened from a finalized one still finds it frozen with the same contents, recommendations belong to frozen READY settlements, and the execution invariant survives finalizing and reopening |
| CloseRuns.FinalizeReads | backend/budget/services_monthly_close.py:919-966 | what finalizing freezes: the opening liquidity of the previous close or of the summary, a residual that closes the liquidity equation in cents, a settlement if the profile is enabled, READY if nothing blocks it, and untouched recommendations only then |
| CloseRuns.FinalizeFreezes | backend/budget/services_settlement_preview.py:1668-1745 | a READY finalize adds one untouched recommendation per previewed row with its source, destination, owner and amount, listed in the order of the rows; the account rows are frozen as reported and nothing else changes |
| CloseRuns.SealedForever | backend/budget/services_monthly_close.py:993-1005 | once a close is locked or its settlement moved money, it and every earlier settled close keep totals and settlement for good |
| CloseRuns.LockedForever | backend/budget/services_monthly_close.py:1020-1032 | a finalized close and only that can be locked, and is then LOCKED with the same totals and settlement at every later point of any run |
| CloseRuns.ReopenDeletes | backend/budget/services_monthly_close.py:969-1017 | a carried-out reopen deletes exactly the recommendations of that close and the later ones, and no ledger transaction |
| CloseRuns.ActivateIff | backend/budget/services_settlement.py:774-857 | activation captures a baseline once: with one only its own start is accepted, without one the balances must be clear |
| CloseRuns.RebaselineIff | backend/budget/services_settlement.py:859-898 | a new baseline replaces the old one exactly while no settlement is READY |
| CloseRuns.ProfileEdits | backend/budget/services_settlement.py:721-898 | adjustments can be configured only before a baseline is captured, accounts added only after it, and disabling keeps everything else |
| CloseRuns.ActivationHeld | backend/budget/services_settlement.py:859-898 | no request changes the activation date while a READY settlement exists |
| CloseRuns.ActivationFixed | backend/budget/services_settlement.py:859-898 | over any run, in or out of month order, the activation date is the same between two points as long as some READY settlement exists all along |
| CloseRuns.FinalizeTiles | backend/budget/services_settlement_preview.py:218-253 | after finalizing a settlement READY every date is in at most one READY period if and only if no later close is READY or the new period is empty; exactly then every READY close still starts the day after the one before it |
| CloseRuns.OutOfOrderOverlaps | backend/budget/services_settlement_preview.py:218-253 | finalizing right below a READY close starts both periods on the same day: the dates of the earlier one, if it has any, are counted twice |
| CloseRuns.OverlapReached | backend/budget/services_settlement_preview.py:218-253 | both cases are reachable for any two months from a household without closes: a date in both periods when settlement started with the earlier month, none when it started the day after that month |
| CloseRuns.DatesOnceIff | backend/budget/services_settlement_preview.py:218-253 | over any run no date is ever in two READY periods if and only if every finalize that made a settlement READY came after all READY closes or had an empty period |
| CloseRuns.PeriodsTile | backend/budget/services_settlement_preview.py:211-272 | over any run in which no READY settlement is finalized below another, except with an empty period, each date from the day after activation to the end of any READY settlement lies in exactly one READY period |
| CloseRuns.LiquidityTelescopes | backend/budget/services_monthly_close.py:938-955 | along closes that each opened from the one before, last liquidity is first opening plus every expected change and residual, to half a cent a close and exactly in cents |
| SettlementChain.BalanceSinceActivation | backend/budget/services_settlement_preview.py:211-265 | over any run of the office, in or out of month order: if the READY settlements that stand were computed from the transactions of their periods, the balance any of them shows for an account is the captured balance plus everything that moved on it from the day after activation to the end of its month |
| CloseOffice.Registry.Finalize | backend/budget/services_monthly_close.py:919-966 | finalizing updates the close in place as the finalize step says |
| CloseOffice.Registry.FreezeSettlement | backend/budget/services_settlement_preview.py:1668-1745 | creates the snapshot and one recommendation per previewed row, in order |
| CloseOffice.Registry.Reopen | backend/budget/services_monthly_close.py:969-1017 | checks the whole chain first, then clears it, as the reopen step says |
| CloseOffice.Registry.MayReopen | backend/budget/services_monthly_close.py:992-1005 | the checking loop refuses exactly the chains with a locked close or with movements |
| CloseOffice.Registry.DropRecommendations | backend/budget/services_settlement_preview.py:1749-1759 | clearing removes exactly the recommendations of the chain and keeps the others in order |
| CloseOffice.Registry.Lock | backend/budget/services_monthly_close.py:1020-1032 | FINALIZED to LOCKED and nothing else |
| CloseOffice.Registry.CaptureBaseline | backend/budget/services_settlement.py:820-855 | the loop over accounts captures one opening row each and enables the profile, or changes nothing |
| CloseOffice.Registry.Activate | backend/budget/services_settlement.py:859-882 | an existing baseline is only re-enabled, and only for its own start date |
| CloseOffice.Registry.Rebaseline | backend/budget/services_settlement.py:890-971 | refused while a READY settlement exists; a failed capture brings the old baseline back |
| Ledger.NoFault | backend/accounting/services_transactions.py:28-56 | lines pass exactly when each names an account of the user in its own three-letter currency with a positive amount |
| Ledger.FirstFaultIs | backend/accounting/services_transactions.py:28-56 | what validation reports is the first faulty line and the first thing wrong with it: owner, code, currency of the account, amount |
| Ledger.ValidateEntries | backend/accounting/services_transactions.py:14-70 | the loop over lines and the per-currency dictionary give the verdict: the first faulty line, or an unbalanced currency unless that is waived |
| Ledger.ComputeEntryTotals | backend/accounting/services_ledger.py:82-94 | the debit and credit accumulators |
| Ledger.GetAccountBalance | backend/accounting/services_ledger.py:97-107 | the scan gives the balance from first principles as of a date and status |
| Ledger.GetAccountBalancesBulk | backend/accounting/services_ledger.py:110-147 | the grouped sums give every listed account of the user the same balance as asking for it alone, and no other account |
| Ledger.TrialBalance | backend/accounting/services_ledger.py:74-107 | over all accounts of a currency debits less credits are exactly what exchanges between currencies leave open, at every date and status |
| Ledger.AccountingEquation | backend/accounting/services_ledger.py:74-79 | balances of asset and expense accounts add up to those of liability, equity and income accounts, plus what exchanges left open |
| QuickEntry.AcceptedIff | backend/accounting/services_quick_entry.py:58-88 | exactly the quick entries that meet the conditions of their movement are written (dates, owners, currencies, positive and agreeing amounts) |
| QuickEntry.MovementMoves | backend/accounting/services_quick_entry.py:367-615 | an accepted movement moves the balance of any account by what it debits less what it credits there, in the sense of that account, also when it names one account twice |
| QuickEntry.MovementEffects | backend/accounting/services_quick_entry.py:367-615 | an adjustment moves its account by exactly the signed difference whatever its type; transfers, investments, revaluations, income, expense and debt payments move the balances of the accounts they name by the amounts they say |
| QuickEntry.SameAccountStays | backend/accounting/services_quick_entry.py:367-615 | a movement whose two sides are the same account leaves every balance alone |
| QuickEntry.PostingMoves | backend/accounting/services_quick_entry.py:90-116 | a new transaction moves the balances it counts towards by its own entries and no other balance |
| OpeningBalance.SyncKeeps | backend/accounting/services_ledger.py:264-430 | synchronising keeps the book: known accounts, balanced openings, at most one opening per position and account |
| OpeningBalance.LatestOpening | backend/accounting/services_ledger.py:264-430 | the opening a synchronisation works on is the latest of its position and account, by date and then id |
| OpeningBalance.ServedKeeps | backend/accounting/services_ledger.py:264-430 | and so does every run of quick entries and synchronisations |
| OpeningBalance.ServedIds | backend/accounting/services_ledger.py:264-430 | transaction ids stay unique and are never used again in any run of quick entries and synchronisations |
| OpeningBalance.EquationAlways | backend/accounting/services_ledger.py:264-430 | so the accounting equation holds at every date and status after any such run |
| OpeningBalance.SyncSetsImpact | backend/accounting/services_ledger.py:298-430 | after a synchronisation the openings of the position are worth exactly the given amount on its account, zero included, asset or liability |
| OpeningBalance.SyncIdempotent | backend/accounting/services_ledger.py:353-430 | synchronising twice with the same figures is synchronising once |
| OpeningBalance.SyncMovesBalance | backend/accounting/services_ledger.py:264-430 | the account moves from the old opening to the new one and no account other than it and equity moves, at any date and status |
| LedgerBook.Books.CreateQuickTransaction | backend/accounting/services_quick_entry.py:25-116 | build, check dates, validate, then write row by row, as the step says |
| LedgerBook.Books.EquityAccount | backend/accounting/services_ledger.py:188-224 | finds or creates the system equity account of a currency |
| LedgerBook.Books.SyncOpening | backend/accounting/services_ledger.py:264-430 | deletes, creates or rewrites the opening in place, as the step says |
| LedgerBook.Books.RewriteEntries | backend/accounting/services_ledger.py:371-430 | corrects both entries in place, or writes both again when one is missing |
| DailySeries.LoadEntries | backend/accounting/services_summaries.py:536-582 | the two grouped queries: sums before the range, and within it by day |
| DailySeries.DayAdds | backend/accounting/services_summaries.py:656-666 | a day adds its own entries to everything before it |
| DailySeries.OpeningBalances | backend/accounting/services_summaries.py:585-605 | the opening running balances are the signed sums of the historical rows |
| DailySeries.GroupDeltas | backend/accounting/services_summaries.py:608-629 | the per-day differences are the signed sums of the ranged rows |
| DailySeries.ApplyDeltas | backend/accounting/services_summaries.py:656-666 | running balances change in place by the differences of the day |
| DailySeries.SerializeRow | backend/accounting/services_summaries.py:669-700 | a row is the converted, ownership-weighted sum of the running balances, or the first missing rate |
| DailySeries.RowAddsUp | backend/accounting/services_summaries.py:669-700 | a row adds up the weighted worths of its accounts by side, at the rates of the day, and is refused exactly when an account that counts has no rate |
| DailySeries.BuildDailyBalanceRows | backend/accounting/services_summaries.py:515-653 | the incremental loop returns for every date of the range the row recomputed from each account balance as of that date, and rejects exactly when one of those rows has no rate |
| DailySeries.SeriesRows | backend/accounting/services_summaries.py:632-653 | row i of a series is dated and computed as of day i |
| DailySeries.EveryDay | backend/accounting/services_summaries.py:632-653 | the series has a row for every day from the first to the last, both included, and no other |
| DailySeries.RowIsNet | backend/accounting/services_summaries.py:695-700 | in one currency and unfiltered, assets less liabilities of a row are the debits less the credits of its accounts up to that day |
| Pagination.EveryRowOnce | backend/accounting/pagination.py:36-51 | following the cursor to the end returns every row exactly once in descending order |
| Pagination.StableWhileChanging | backend/accounting/pagination.py:36-51 | when rows come and go between pages nothing is shown twice or out of order, and a row present all along is shown if the end is reached |
| Pagination.FollowReachesEnd | backend/accounting/pagination.py:36-51 | on a table that does not change, one request more than there are rows left reaches the end and shows what following the cursor shows |
| Pagination.CursorRoundTrip | backend/accounting/pagination.py:13-33 | decoding an encoded cursor gives back its date and id |
| Pagination.NextPageFollows | backend/accounting/pagination.py:40-45 | so the next page is cut just below the last row shown |
| Pagination.OrdinalOrder | backend/accounting/pagination.py:40-45 | the days of cursors are ordered as year, month and day |
| BalanceAfter.SumImpacts | backend/accounting/views.py:120-141 | the sum of signed impacts of the selected transactions |
| BalanceAfter.BuildBalanceAfterMap | backend/accounting/views.py:143-182 | everything less what is newer, then decremented row by row |
| BalanceAfter.EverythingIsBalance | backend/accounting/views.py:120-141 | the sum everything starts from is the account balance over all dates and statuses |
| BalanceAfter.RunningIsReplay | backend/accounting/views.py:151-182 | on every page the running balance before a row is the replayed sum of all transactions of the account at or before it |
| BalanceAfter.BalanceAfterPage | backend/accounting/views.py:143-182 | so on every page of a list filtered by account and date window each row shows its replayed balance |
| BalanceAfter.TableShows | backend/accounting/views.py:143-182 | the list shows the transactions of the user on the account dated from the first to the last day of the window, both included, and only dates within it |
| Distributions.SpreadEvenly | backend/budget/services.py:602-611 | the same rounded share every month, then the end month is corrected in place |
| Distributions.SpreadAddsUp | backend/budget/services.py:602-611 | a spread adds up to its amount; each month but the last is the even share rounded, the last within half a cent for each other month |
| Distributions.PlanAddsUp | backend/budget/services.py:567-611 | an expense or income plan that spreads at all adds up to its effective annual amount, in cents, over months of the year |
| Distributions.PlanMonths | backend/budget/services.py:518-611 | which months a plan fills: the target month of a one-off entry or of an income, else every month of the life of the entry, its term read as an interval of months |
| Distributions.AnnualAmount | backend/budget/services.py:173-194 | the amount of a year is the annual amount, or the part of the months of a monthly term without another end year, to the nearest cent |
| Distributions.SpreadShares | backend/budget/services.py:604-606 | every month of a spread but the last is the even share to the nearest cent, a tie away from zero |
| Distributions.LastMonthNegative | backend/budget/services.py:605-610 | c cents over n months end with a negative last month exactly when the remainder of c by n is at least half of n and quotient and remainder together stay below n - 1; seven cents over a year do |
| Distributions.PlanGoesNegative | backend/budget/services.py:567-615 | the plan of any entry has a negative month exactly when it is spread over a window and its annual amount meets that condition there |
| Distributions.ComputeSmartDistribution | backend/budget/services_monthly_close.py:588-644 | exactly the uncovered entries get a suggestion: the scaled plan, the last item of a group taking the rounding, never negative; without a residual, or when the plans cancel, the plans themselves |
| Distributions.SuggestedShare | backend/budget/services_monthly_close.py:617-642 | every suggestion but the last of its group is the plan scaled by the residual over the net plan, to the nearest cent, or nothing when that is negative |
| Distributions.NegativeScaleGivesZero | backend/budget/services_monthly_close.py:613-622 | with positive plans and a negative scale every suggestion is zero |
| Distributions.GroupAddsUp | backend/budget/services_monthly_close.py:624-642 | a group adds up to its scaled plan exactly when its last row need not be clamped |
| Distributions.ResidualExplained | backend/budget/services_monthly_close.py:588-644 | when neither group is clamped, income less expense misses the residual by at most one cent |
| PlanVsExecuted.PlanEntries | backend/budget/services.py:693-713 | planning leaves every slot with the entries that plan it, their amounts, and month figures that agree with the slots |
| PlanLaws.PlanShows | backend/budget/services.py:680-700 | the plan of a month is what all entries plan in it, that of a category or subcategory of the breakdown the annual plans of its entries |
| PlanExecution.ResolveSlot | backend/budget/services.py:715-756 | the ledger first, else any override, else the entries one by one |
| PlanExecution.SlotFigures | backend/budget/services.py:715-756 | the figures of a slot: its ledger amount and nothing pending; else what its check-ins tell, only those confirmed with an amount when there is one, and what entries without check-in had planned |
| PlanExecution.OutcomeCounts | backend/budget/services.py:715-756 | every entry of a slot is confirmed, by ledger or check-in, or waiting; executed amounts are in cents |
| PlanExecution.ExecuteSlots | backend/budget/services.py:715-756 | over all slots the month dictionaries agree with the per-slot figures |
| PlanExecution.UntouchedSlotIsPending | backend/budget/services.py:739-743 | a planned slot without ledger and check-ins is pending with exactly its planned amount |
| PlanExecution.CollectUnbudgeted | backend/budget/services.py:758-767 | the ledger slots no entry plans, by slot and by month |
| PlanExecution.ExecutionIsLedgerAndCheckins | backend/budget/services.py:719-767 | in every month and over the year budgeted plus unbudgeted execution is the whole categorised ledger plus the check-ins of the slots it does not cover: no ledger figure is lost or counted twice |
| PlanExecution.ExpectedLessConfirmed | backend/budget/services.py:700-756 | in every month expected less confirmed is the number of entries waiting, and confirmed is ledger plus fallback |
| PlanExecution.BuildBreakdown | backend/budget/services.py:345-425 | categories, subcategories and cells are the sums of their slots |
| PlanExecution.Summarise | backend/budget/services.py:623-865 | the breakdown by category and the month-by-month figures have the same planned, budgeted and unbudgeted totals; the income summary aggregates the same way |
| PlanExecution.BreakdownInCents | backend/budget/services.py:427-513 | with ledger figures in cents, rounding what the breakdown shows changes nothing |

## Left out

- HTTP views, serializers, authentication, the ORM and the front end: requests arrive as values and queries as data.
- Ownership resolution, effective asset and liability amounts, the liquidity summary and the plan hook: inputs.
- Decimal context precision (28 digits): quotients are exact rationals before they are rounded.
- Currency-code normalisation (trimming and upper case) and taxonomy key normalisation: codes and keys arrive normalised.
- Market data, backups, imports, labels, error texts, source hashes and timestamps (only set or unset is kept).
- Budget classification of quick entries (flow family, categories) and the linked asset or liability of an entry.
- Investment-fee relocation, start-date synchronisation, and the review, text, kind and category filters of the list.
- Wallet sweep creation, wallet normalisation bookkeeping and the freezing of ownership allocations.
- Deleting or editing ledger transactions by hand during settlement runs.
- The amounts of card and investment openings that join a close (`services_settlement_preview.py:433-508`).
- Several operating accounts that fund cards, and their target rows; the direct branch is modelled for one fund.
- Economic rows, account rows and warnings are not serialised; the preview keeps positions, rows and blockers.
- Reserves.ComputeReserves: warnings are not kept, and the account of a linked asset is an input.
- MonthlyClose.ServedKeeps: the opening position of a snapshot covers the previous rows or the baseline, not cards and
  investments that join it; the reason of a refusal is not distinguished.
- Freezing.RoutedCloseIsGood: the ledger account of a settlement account is fixed when the close is frozen and no two
  settlement accounts share one, as `net_worth/services_assets_core.py:229-232` checks when they are linked.
- ExecutionRuns.KeysActOnce: a reversal with an explicit amount and no key is looked up by the empty key and is not
  covered.
- OfficeRuns.ServedKeysActOnce: the same reversals are not covered.
- OfficeRuns.ServedFinishes: the same assumption on client keys as ApplyAllRuns.ApplyAllFinishes.
- SettlementLedger.AppliedShowsInBalances: one currency and one user; recorded transactions carry no exchange or opening.
- ApplyAllRuns.ApplyAllFinishes: assumes client keys never look like the keys the program composes.
- OpeningBalance.SyncKeeps: concurrent creation of two system equity accounts is not modelled.
- DailySeries.SerializeRow: the figures of a row are exact; printing each one as a string of cents is not modelled.
- DailySeries.BuildDailyBalanceRows: row totals are exact; printing them in cents is not modelled.
- Pagination.CursorRoundTrip: the text before base 64, with the exact date layout; lenient number and date forms that
  the decoder also accepts are not modelled.
- BalanceAfter.BalanceAfterPage: lists filtered by year, month or status are not covered.
- Distributions.ComputeSmartDistribution: the choice of uncovered entries is an input.
- PlanExecution.BuildBreakdown: sorting and the has-budget flags are not modelled; a slot whose own figure is zero opens
  no bucket for that figure.
- Settlement.MonthReachesTargets: months without an operating account that funds cards; that every member with a
  balance has a primary account, and an opening position in cents (as from every snapshot), are conditions. The other
  branch is `Settlement.MonthMeetsObligation`, sub-cent openings are `Settlement.MonthComesNear`.
- SettlementChain.BalanceSinceActivation: participants, ownerships and quotes stay the same from close to close, every
  entry on a participant has an owner, and captured balances are in cents.
- PlanExecution.Summarise: the income summary is the same computation and is not repeated; completion ratios, coverage
  modes and month counters are not modelled.

# Leopold draw and accounting core: a Dafny model

Leopold is a prize-savings protocol: savers hold balances in vaults, a round weighs each saver by balance integrated over
time, a random candidate is mapped without bias to a ticket, the ticket picks one saver, and the prize is paid to that
saver's principal or winnings while a category ledger stays solvent. The repository fixes what the encrypted contracts
must compute in plaintext TypeScript over unbounded integers. This project models that TypeScript in Dafny 4.11 and
proves what it promises. `dafny verify dfyconfig.toml` checks all of it.

How the files fit together:

- `TwabHistory`, `Checkpoints`, `TwabModel`, `TwabRuns`, `TwabOrder`, `TwabGaps`: the time-weighted ledger. `TwabHistory`
  says what a weight is, second by second; `TwabModel` holds the class; `TwabRuns` and `TwabOrder` speak about whole runs
  of calls, calls that throw half way included; `TwabGaps` says which calls stop the books from reconciling, and by how
  much.
- `IncrementalTwab`: the incremental accrual, proved to refine the ledger and never to trip a locked bound.
- `Rejection`, `Weights`, `Settlement`, `DrawFairness`: candidate to ticket to winner to payout, and the exact count of
  candidates on which each saver wins, down to the deposits that earned them.
- `WinnerChunks`, `RoundModel`: selection in interruptible chunks, and the state machine that allows one accepted ticket.
- `Accounting`, `DrawLedger`: the category ledger over every run, and its agreement with the settled draws.
- `DebugSelector`: the glob matcher behind the debug-output guard.
- `Text`, `CanonicalJson`, `CanonicalForm`: the canonical printer, a reader it round-trips through, and which of the texts
  with one meaning it chooses.
- `OperationManifest`, `ManifestOrder`: the manifest derived from the circuits, and exactly when order cannot matter.
- `WidthDomain`: bit widths. `Outcomes`: values and thrown errors. `Arithmetic`: one fact about products.

The source mutates its ledgers, its round state and its category ledger in place; these are classes here. Their methods
are proved against functions on values (`Apply`, `RoundStep`, `Applied`), and the theorems are about those functions. Loops
of the source are loops here (`Interpolate`, `SelectWinner`, `Payout`, `WalkSlice`, `CollectChunks`,
`DebugPatternMatches`, `RequiredBits`, the manifest's nested loops).

Four promises of the source fail on some inputs. Each failure is shown on a run, and the exact condition is proved for all
inputs:

- Individual and global balances and weights do not reconcile after every call. `change` writes the account before it
  examines the vault total, so a call that the total refuses has already changed the account
  (`TwabGaps.LateDepositBreaksAdditivity`). `TwabGaps.GapOnEveryRun` gives the difference on every run;
  `TwabGaps.ReconcilesUnlessTotalIsLeftBehind` says of each action, moves included, exactly when it changes that
  difference, and `TwabGaps.RunReconcilesUnlessTotalIsLeftBehind` which runs reconcile throughout.
- After such a call an account may be unable to withdraw what it holds: the vault total throws "negative aggregate"
  (`TwabGaps.LateDepositCannotBeWithdrawn`, `TwabGaps.NegativeAggregateNeedsGap`). Without one it cannot
  (`TwabOrder.NegativeAggregateIsUnreachable`).
- A move does not always conserve what its account holds, as it never undoes its withdrawal: neither when the source total
  refuses it nor when the destination array does (`TwabGaps.MoveConservesIff`, `TwabGaps.MoveLosesAtTheSource`,
  `TwabGaps.MoveLosesAtTheDestination`).
- The manifest depends on the order of the circuits when two operations share a variant id without sharing the three
  names it is joined from: `ManifestOrder.OrderCanMatter` gives two circuits whose manifest changes with their order, and
  `ManifestOrder.OrderIndependentIffNoCollision` the exact condition. The registered operations have no dots in the names
  concerned (`ManifestOrder.DotFreeNamesDoNotCollide`).

## Model

| member | source | states |
|---|---|---|
| `Checkpoints.Interpolate` | reference/leopoldModels.ts:92-103 | The binary search finds the newest observation not after the time and extends it at its balance; 0 before the first observation and for no observations. |
| `Checkpoints.WrittenRepresents` | reference/leopoldModels.ts:80-90 | After a write, overwriting one with the same timestamp or appended, the array answers every query as the integral of the history extended by that action. |
| `Checkpoints.WrittenSound` | reference/leopoldModels.ts:80-90 | A write with a non-negative balance keeps the array strictly ordered in time and its cumulative value non-decreasing in the queried time. |
| `TwabModel.TwabReferenceModel.Deposit` | reference/leopoldModels.ts:29-32 | New state and outcome are those of the deposit step, also when it throws; every array stays sound. |
| `TwabModel.TwabReferenceModel.Withdraw` | reference/leopoldModels.ts:34-37 | The same for a withdrawal, refused unless positive and within the balance. |
| `TwabModel.TwabReferenceModel.Move` | reference/leopoldModels.ts:39-43 | The same for a move: the withdrawal is committed before the deposit can throw. |
| `TwabModel.TwabReferenceModel.PostChange` | reference/leopoldModels.ts:65-78 | Account first, then vault total; what was written before a throw stays written. |
| `TwabModel.TwabReferenceModel.Write` | reference/leopoldModels.ts:80-90 | Refuses exactly a timestamp older than the newest; otherwise overwrites or appends. |
| `TwabModel.TwabReferenceModel.Weight` | reference/leopoldModels.ts:49-52 | Throws exactly on a reversed interval; otherwise the non-negative difference of cumulative values. |
| `TwabModel.TwabReferenceModel.AggregateWeight` | reference/leopoldModels.ts:54-59 | The difference of the vault's cumulative values, accepted for reversed intervals too, non-negative for the others. |
| `TwabModel.TwabReferenceModel.CumulativeAt` | reference/leopoldModels.ts:45-47 | The account's interpolated cumulative value. |
| `TwabRuns.RunFollowsApply` | reference/leopoldModels.ts:29-43 | The books the run theorems speak about hold the ledger that the calls reach, whatever they throw. |
| `TwabRuns.WeightIsBalanceTime` | reference/leopoldModels.ts:45-59 | On every run, throwing calls included, weight and aggregate weight are the second-by-second integrals of the balance built from the postings that were committed. |
| `TwabRuns.NoThrowWeight` | reference/leopoldModels.ts:29-59 | On a run without throws the same, with the history read off the list of actions alone. |
| `TwabRuns.VaultIsSumOfAccounts` | reference/leopoldModels.ts:54-78 | While account and total have received the same postings, total balance and aggregate weight of any interval are the sums over any complete listing of the accounts. |
| `TwabOrder.ClosedHistoryIsImmutable` | reference/leopoldModels.ts:29-59 | No sequence of later actions, accepted, refused or half committed, changes a weight that closed at or before them. |
| `TwabOrder.NegativeAggregateIsUnreachable` | reference/leopoldModels.ts:73-76 | While account and total have received the same postings, the vault total never throws "negative aggregate" for a posting the account accepts. |
| `TwabOrder.HalfCommitsWhenTotalIsNewer` | reference/leopoldModels.ts:65-78 | On such books a posting is half committed iff the account accepts it and the vault total is newer than its timestamp. |
| `TwabGaps.GapOnEveryRun` | reference/leopoldModels.ts:29-78 | On every run, throwing calls included, the balances of all accounts exceed the vault total, and their weights over any interval the aggregate weight, by exactly what was posted to accounts and not to the total. |
| `TwabGaps.ReconcilesUnlessTotalIsLeftBehind` | reference/leopoldModels.ts:29-78 | On every reachable ledger an action, moves included, changes the gap between accounts and vault total iff its guards and its account accept it and a vault total it touches does not; in balances and in cumulative values alike. |
| `TwabGaps.RunReconcilesUnlessTotalIsLeftBehind` | reference/leopoldModels.ts:29-78 | A run reconciles at every point, in balances and weights, iff none of its actions leaves a total behind. |
| `TwabGaps.NegativeAggregateNeedsGap` | reference/leopoldModels.ts:73-76 | "negative aggregate" is thrown exactly when the account covers a posting and the vault total does not, and then the accounts hold more than the total. |
| `TwabGaps.LateDepositBreaksAdditivity` | reference/leopoldModels.ts:65-78 | A two-call run after which the accounts hold 12 and the vault total is 7. |
| `TwabGaps.LateDepositCannotBeWithdrawn` | reference/leopoldModels.ts:65-78 | A three-call run after which an account holds 5 and its withdrawal of 5 throws "negative aggregate". |
| `TwabOrder.OnTimeOutcome` | reference/leopoldModels.ts:29-43 | An action no older than the totals it touches succeeds exactly when its own guards pass, and keeps account and total aligned either way. |
| `TwabOrder.ChronologicalIsAdditive` | reference/leopoldModels.ts:29-78 | After every run that is chronological per vault, whatever it refused, balances and weights of all accounts sum to the vault's. |
| `TwabOrder.NoThrowIsAligned` | reference/leopoldModels.ts:65-78 | After every run without throws, account and total are aligned. |
| `TwabGaps.MoveConservesIff` | reference/leopoldModels.ts:39-43 | For every sound ledger, hence every reachable one, and every move, the account's holdings are conserved iff the guards or the source array refuse it at once, or the source total covers it and neither that total nor the destination array is newer. |
| `TwabGaps.MoveLosesAtTheSource` | reference/leopoldModels.ts:39-43 | A run after which a move refused by the newer source total takes 3 of the 5 an account holds. |
| `TwabGaps.MoveLosesAtTheDestination` | reference/leopoldModels.ts:39-43 | The same with a move refused by the newer destination array. |
| `IncrementalTwab.NoLockedBoundTrips` | scripts/sg3-domain.ts:84-111 | In a round of at most the maximal length, a sequence of updates throws iff some balance leaves the cap or some clamped time goes back; the accrued value is at most cap times elapsed time, so the overflow check never fires. |
| `IncrementalTwab.IncrementalIsAccrued` | scripts/sg3-domain.ts:84-111 | What has accrued is the integral of the balance from the opening of the round to the last, clamped, update. |
| `IncrementalTwab.IncrementalRefinesLedger` | scripts/sg3-domain.ts:84-111 | Accruing an account's actions of a round, the last at or after its close, yields exactly the ledger's weight. |
| `IncrementalTwab.PostCloseUpdateAddsZero` | scripts/sg3-domain.ts:108-110 | After the close an update adds nothing and leaves the effective time at the close. |
| `IncrementalTwab.UpdateReports` | scripts/sg3-domain.ts:84-111 | For all inputs whatever: which updates are accepted; the reported elapsed time leads from the last update to the effective time, and the cumulative value rises by the reported delta, the old balance over that time. |
| `IncrementalTwab.AggregateWithinCap` | scripts/sg3-domain.ts:366-367 | With the pool within its cap, the weights of any number of participants sum to at most cap times duration. |
| `Rejection.MapCandidateLaw` | reference/leopoldModels.ts:303-315 | A candidate becomes the ticket candidate mod total iff it is below the largest multiple of the total in the domain. |
| `Rejection.ParametersLaw` | reference/leopoldModels.ts:303-308 | For every total: accepted iff positive and below 2^128; quotient times total is the limit, 2^128 less 2^128 mod total; all candidates are accepted iff that remainder is 0. |
| `Rejection.TicketsAreUniform` | reference/leopoldModels.ts:303-315 | Every ticket comes from exactly quotient candidates, and exactly 2^128 mod total candidates are rejected. |
| `Rejection.MapsAgree` | scripts/sg3-domain.ts:160-175 | The candidate map of the domain analysis at width 128 agrees with the reference map, the zero and the unit total included. |
| `Rejection.PlansAgree` | scripts/sg4-protocol.ts:107-129 | The benchmark protocol's plan exists exactly on the locked totals, has no draw exactly for 0, and otherwise is the reference parameters, with quotient and remainder of the division of 2^128. |
| `Rejection.AggregateFitsTicketWidth` | scripts/sg3-domain.ts:16-20 | The ticket domain has 2^128 members and holds the largest supported aggregate. |
| `Rejection.PlanLaw` | scripts/sg3-domain.ts:113-158 | For every width and total: no internal check fails; the domain is 2^width and quotient times total is the limit, the domain less its remainder; all candidates are valid iff the total is a power of two; the limit fits the width iff not; more than half are accepted. |
| `Rejection.PlanOutcomes` | scripts/sg3-domain.ts:113-175 | For all inputs whatever: which the plan and the candidate map refuse, and that a zero total has no draw and accepts nothing. |
| `Rejection.AcceptedAreUniform` | scripts/sg3-domain.ts:160-175 | At every width, every ticket comes from exactly 2^width / total candidates, and exactly 2^width mod total give none. |
| `Rejection.RetriesRarelyFail` | scripts/sg3-domain.ts:113-175 | Of all sequences of k candidates fewer than one in 2^k is rejected throughout. |
| `Settlement.SettlePrivateDraw` | reference/leopoldModels.ts:395-452 | The three passes with their running totals give the declaratively stated settlement; the only errors are the four input checks, so the reconciliation and conservation errors are unreachable. |
| `Settlement.SelectWinner` | reference/leopoldModels.ts:408-419 | Exactly one predicate is true: that of the participant whose prefix interval holds the ticket. |
| `Settlement.Payout` | reference/leopoldModels.ts:421-441 | The pass over a running principal total saves the prize iff the winner asked for it and total plus prize is within the cap. |
| `Settlement.SettlementLaws` | reference/leopoldModels.ts:395-452 | The winner is the unique participant with prefix(i) <= ticket < prefix(i+1) and has positive weight; the whole prize goes to the winner's principal iff the winner asked for it and total principal plus prize is within the cap, and to the winnings otherwise; nobody else changes and nothing else does; totals, row amounts and the conversion time are exact. |
| `DrawFairness.OutcomeOf` | reference/leopoldModels.ts:455-471 | A complete draw succeeds iff the candidate is below the limit, and i wins iff the residue lies in i's interval. |
| `DrawFairness.DrawRefusals` | reference/leopoldModels.ts:455-471 | For all inputs whatever: a complete draw goes through iff candidate and total are in the ticket domain, the candidate is below the limit, and neither prize nor weights are negative. |
| `DrawFairness.DrawPays` | reference/leopoldModels.ts:455-471 | A complete draw that goes through reports its candidate and the ticket candidate mod total, and settles this prize, at this time, under this cap, on the holder of that ticket. |
| `DrawFairness.ExactProportionalFairness` | reference/leopoldModels.ts:455-471 | Participant i wins on exactly quotient times weight of the 2^128 candidates, and exactly 2^128 mod T fail. |
| `DrawFairness.SavingsDecideOdds` | reference/leopoldModels.ts:17-108 | End to end: after any aligned run under the pool cap, which includes every chronological run whatever it refused and every run without throws, an account wins on exactly quotient times its balance integrated over the round. |
| `Weights.CrossingInterval` | reference/leopoldModels.ts:410-416 | For non-negative weights exactly one half-open prefix interval holds a ticket below the total. |
| `WinnerChunks.WinnerStateTransition` | scripts/sg4-protocol.ts:2580-2636 | Succeeds exactly on contiguous, in-range, positive slices within the total bound, and then advances prefix, winner and cursor by the whole slice. |
| `WinnerChunks.BuildWinnerPostState` | scripts/sg4-protocol.ts:2638-2666 | The unchecked loop finds the first crossing for weights of any sign, and takes the winner's index from the list. |
| `WinnerChunks.TwinReadsTheList` | scripts/sg4-protocol.ts:2638-2666 | For weights of any sign and any list, the winner is the listed index at the first position whose prefix exceeds the ticket. |
| `WinnerChunks.TwinsAgree` | scripts/sg4-protocol.ts:2580-2666 | Wherever the checked oracle accepts, the unchecked one gives the same state. |
| `WinnerChunks.DeterministicChunks` | reference/leopoldModels.ts:474-483 | The chunks are the consecutive slices of the requested size, their number is the rounded-up quotient, and together they read 0 to n - 1; the two errors are exact. |
| `WinnerChunks.SlicingIsIrrelevant` | scripts/sg4-protocol.ts:2580-2636 | However everybody is divided into consecutive non-empty slices, the chain of checked calls over them accepts iff one call over everybody does, and reaches the same state. |
| `WinnerChunks.ChunkSizeIsIrrelevant` | reference/leopoldModels.ts:474-483 | In particular for the lists that the deterministic chunking returns, whatever its size. |
| `WinnerChunks.ChunksFindTheSettledWinner` | scripts/sg4-protocol.ts:2580-2636 | From the zero state, over positive weights and any such slices, chunked selection ends with the winner, the prefix and the cursor of the settled draw. |
| `WinnerChunks.ProjectSequentialCompletion` | scripts/sg4-protocol.ts:146-158 | The projected number of transactions is the least whose capacity covers the participants, which is the number of chunks made; the latency is that number of transactions at the given latency. |
| `RoundModel.RoundStateReferenceModel.Candidate` | reference/leopoldModels.ts:344-348 | Generates only from finalized or rejected rounds; otherwise throws and changes nothing. |
| `RoundModel.RoundStateReferenceModel.FinalizeAggregate` | reference/leopoldModels.ts:337-342 | A zero total ends the round empty, any other finalizes it, from the pending state only. |
| `RoundModel.RoundStateReferenceModel.Validity` | reference/leopoldModels.ts:350-355 | Accepts or rejects a pending candidate, from no other state. |
| `RoundModel.RoundStateReferenceModel.Close` | reference/leopoldModels.ts:333-335 | Closes an open round, and no other. |
| `RoundModel.ReplacementsArePaidFor` | reference/leopoldModels.ts:330-361 | On every sequence of calls, candidates generated equal rejections plus one while a candidate is pending or accepted; an empty round has none. |
| `RoundModel.ReplacementNeedsRejection` | reference/leopoldModels.ts:344-348 | Where a candidate can be generated, there has been an earlier one iff the state is rejected. |
| `RoundModel.FinalStatesAreFinal` | reference/leopoldModels.ts:330-361 | Accepted and empty rounds never change state again and generate nothing. |
| `RoundModel.CallsGoThroughIff` | reference/leopoldModels.ts:330-361 | After every sequence of calls, in terms of the calls that went through: closing goes through iff none has; finalizing iff closed and not yet finalized; generating iff finalized with weight and every candidate so far rejected; checking iff a candidate awaits it; and which rounds are accepted and empty. |
| `RoundModel.AcceptingAllNeedsNoCheck` | reference/leopoldModels.ts:344-348 | Where every candidate generated accepts all, no check ever goes through, and the round is accepted exactly after its first candidate. |
| `RoundModel.DriveDraw` | scripts/leopold-live-closure.ts:322-351 | Driven by a stream of candidates, the machine accepts exactly at the first valid one, with that candidate mod total as ticket, and generates nothing after it or for a zero total; the budget error is thrown iff no candidate is valid, the unexpected-state error never. |
| `RoundModel.DriverRarelyFails` | scripts/leopold-live-closure.ts:323-351 | A budget of k attempts fails on fewer than one stream in 2^k. |
| `Accounting.GuardsKeepSolvent` | reference/leopoldModels.ts:148-294 | The guards alone preserve every invariant that the closing checks test, so those never throw, and the unstated one that allocated winnings are owed, withdrawn or auto-saved. |
| `Accounting.RunsKeepSolvent` | reference/leopoldModels.ts:129-299 | On every run the ledger stays solvent, and principal held rises by deposits plus auto-saved prizes less principal paid out, losses included. |
| `Accounting.PrincipalFlows` | reference/leopoldModels.ts:148-256 | On every run liability, liquid, deployed and in-transition principal and the shortfall change each by the sums of its own inflows less its own outflows, over the operations that went through; the shortfall is exactly the losses. |
| `Accounting.PrizeFlows` | reference/leopoldModels.ts:212-266 | The same for surplus, sponsored prize, reserve, owed winnings and prize assets: yield and contributions stay apart until they are reserved. |
| `Accounting.TotalFlows` | reference/leopoldModels.ts:212-266 | The running totals of yield, contributions, allocated, auto-saved and withdrawn winnings count each its own operation. |
| `Accounting.GoesThroughIffCovered` | reference/leopoldModels.ts:148-266 | On every run an operation goes through iff its amount is positive, for a reservation not negative, and the category it draws on covers it; refused, it changes nothing. |
| `Accounting.RedundantGuards` | reference/leopoldModels.ts:155-266 | On every run two guards are implied by the others: winnings owed are always liquid, liquid principal is never more than is owed. |
| `Accounting.UndoLaws` | reference/leopoldModels.ts:148-210 | Withdrawing undoes depositing, returning undoes deploying, cancelling undoes beginning, and beginning then completing is deploying. |
| `Accounting.AccountingReferenceModel.DepositPrincipal` | reference/leopoldModels.ts:148-153 | Liability and liquid principal rise together, refused unless positive; the closing check never throws. |
| `Accounting.AccountingReferenceModel.WithdrawPrincipal` | reference/leopoldModels.ts:155-162 | Liability and liquid principal fall together, refused beyond either; the closing check never throws. |
| `Accounting.AccountingReferenceModel.DeployPrincipal` | reference/leopoldModels.ts:164-170 | Liquid principal becomes deployed, refused beyond what is liquid; the closing check never throws. |
| `Accounting.AccountingReferenceModel.BeginAggregateDeployment` | reference/leopoldModels.ts:172-178 | Liquid principal goes into transition, refused beyond what is liquid; the closing check never throws. |
| `Accounting.AccountingReferenceModel.CompleteAggregateDeployment` | reference/leopoldModels.ts:180-186 | Principal in transition becomes deployed, refused beyond what is in transition; the closing check never throws. |
| `Accounting.AccountingReferenceModel.CancelAggregateDeployment` | reference/leopoldModels.ts:188-194 | Principal in transition becomes liquid again, refused beyond what is in transition; the closing check never throws. |
| `Accounting.AccountingReferenceModel.RecognizeStrategyLoss` | reference/leopoldModels.ts:196-202 | Deployed principal becomes shortfall, still owed; refused beyond what is deployed; the closing check never throws. |
| `Accounting.AccountingReferenceModel.ReturnPrincipal` | reference/leopoldModels.ts:204-210 | Deployed principal becomes liquid, refused beyond what is deployed; the closing check never throws. |
| `Accounting.AccountingReferenceModel.HarvestGenuineSurplus` | reference/leopoldModels.ts:212-218 | Prize assets, surplus and harvested yield rise together; the closing check never throws. |
| `Accounting.AccountingReferenceModel.Sponsor` | reference/leopoldModels.ts:220-226 | Prize assets, sponsored prize and contributions rise together; the closing check never throws. |
| `Accounting.AccountingReferenceModel.ReservePrize` | reference/leopoldModels.ts:228-236 | Surplus and sponsored prize become reserved prize, refused when negative or unfunded, zero allowed; the closing check never throws. |
| `Accounting.AccountingReferenceModel.AllocateWinnings` | reference/leopoldModels.ts:238-245 | Reserved prize becomes owed winnings, refused beyond the reserve; the closing check never throws. |
| `Accounting.AccountingReferenceModel.AutoSave` | reference/leopoldModels.ts:247-256 | Owed winnings and their prize assets become principal; the guard on winnings alone keeps prize assets non-negative. |
| `Accounting.AccountingReferenceModel.WithdrawWinnings` | reference/leopoldModels.ts:258-266 | Owed winnings are paid from prize assets, refused beyond either; the closing check never throws. |
| `DrawLedger.PostingsGoThrough` | reference/leopoldModels.ts:238-256 | Allocating a funded prize and auto-saving its saved part never throws, and moves exactly those amounts. |
| `DrawLedger.HistoriesAgree` | reference/leopoldModels.ts:148-452 | After any sequence of deposits, withdrawals, winnings claims, funded draws and other ledger operations, both liabilities equal the sums of what the participants hold. |
| `DrawLedger.SaversAreServed` | reference/leopoldModels.ts:148-452 | After any such history all winnings shown can be claimed at once, principal shown can be withdrawn as far as it is liquid, and deposits are taken in. |
| `DebugSelector.DebugPatternMatches` | tasks/sg2.ts:175-207 | True iff the namespace is the pattern with its stars filled by some strings, possibly empty; terminates. |
| `DebugSelector.OneStar` | tasks/sg2.ts:175-207 | A pattern with one star names the namespaces that begin with what is before it and end, without overlap, with what is after it. |
| `DebugSelector.EarliestIsEnough` | tasks/sg2.ts:181-198 | Keeping only the last star loses no match. |
| `DebugSelector.PatternsAreWords` | tasks/sg2.ts:210-214 | Trimming, replacing, splitting and filtering reads off exactly the maximal runs between commas and white space. |
| `DebugSelector.WordsAtSeparator` | tasks/sg2.ts:210-214 | A comma, a blank, a tab and a line break all separate words. |
| `DebugSelector.DebugNamespaceEnabled` | tasks/sg2.ts:209-222 | Enabled iff some included word of the selector matches and no excluded one does. |
| `DebugSelector.MinusDisables` | tasks/sg2.ts:215-218 | A word with a minus disables everything the rest of it matches, wherever it stands and whatever else the selector says. |
| `DebugSelector.WordEnables` | tasks/sg2.ts:219-221 | A selector of one word without a minus enables exactly what the word matches. |
| `CanonicalJson.CanonicalJsonReadsBack` | scripts/sg4-hcu-authority-protocol.ts:1237-1247 | The text of a supported value is read back, by a reader that refuses leading zeros and negative zero as section 6 of RFC 8259 does, as the value with sorted members; string escapes are those of its section 7. |
| `CanonicalJson.PrinterThrows` | scripts/sg4-hcu-authority-protocol.ts:1237-1247 | The recursion, which fails at the first unsupported item or member, succeeds iff the value is supported at every depth. |
| `CanonicalJson.CanonicalJsonIsInjective` | scripts/sg4-hcu-authority-protocol.ts:1237-1247 | Two values have one outcome iff both are unsupported, or both are supported and equal with objects read as maps. |
| `Text.BeforeIsLexicographic` | scripts/sg4-hcu-authority-protocol.ts:1243-1243 | The sorting order is the lexicographic one: one text begins the other, or has the smaller code unit at the first difference. |
| `CanonicalForm.CanonicalKeysAscend` | scripts/sg4-hcu-authority-protocol.ts:1241-1245 | The text reads back as a value iff that value equals the input, with objects read as maps, and has its keys in strictly ascending lexicographic order at every depth. |
| `CanonicalForm.EscapeIsShortest` | scripts/sg4-hcu-authority-protocol.ts:1239-1239 | No string literal without lone surrogates that reads as the string is shorter than the printed one, so nothing is escaped that need not be. |
| `CanonicalForm.EscapedIsWellPaired` | scripts/sg4-hcu-authority-protocol.ts:1239-1239 | Whatever the string, the printed literal has no lone surrogate. |
| `CanonicalForm.EscapesArePlain` | scripts/sg4-hcu-authority-protocol.ts:1239-1239 | Escapes are plain units, with hexadecimal digits in lower case. |
| `CanonicalForm.SampleText` | scripts/sg4-hcu-authority-protocol.ts:1237-1247 | One nested value and its text, unit by unit, members reordered. |
| `OperationManifest.DeriveCanonicalOperationManifest` | scripts/sg4-protocol.ts:510-561 | Succeeds iff every FHE call is declared and priced calls with one variant id agree; then lists exactly the executed variants, sorted, each with exactly its sorted calls and circuits. |
| `OperationManifest.ManifestOmitsNothing` | scripts/sg4-protocol.ts:507-561 | A call is listed iff some circuit executes it, it begins with "FHE.", and it is declared and priced; its circuits are listed with it; no executed call that begins so is undeclared. |
| `OperationManifest.MergeCall` | scripts/sg4-protocol.ts:516-557 | One call is skipped, merged or refused, as the manifest of the executions so far requires. |
| `ManifestOrder.ManifestIsUnique` | scripts/sg4-protocol.ts:507-561 | Without id collisions the set of executions determines the manifest. |
| `ManifestOrder.ManifestIsDetermined` | scripts/sg4-protocol.ts:510-561 | In one order of execution there is only one manifest, with or without id collisions. |
| `ManifestOrder.OrderIndependentIffNoCollision` | scripts/sg4-protocol.ts:507-561 | Every reordering of the circuits and of the calls inside them has the same manifest iff no two executed operations share an id without sharing its three names. |
| `ManifestOrder.DotFreeNamesDoNotCollide` | scripts/sg4-protocol.ts:499-505 | Operations and modes without dots cannot collide. |
| `ManifestOrder.DottedNamesCollide` | scripts/sg4-protocol.ts:499-505 | Two agreeing operations with different names and one id. |
| `ManifestOrder.OrderCanMatter` | scripts/sg4-protocol.ts:507-561 | Two circuits executing them, in code units: the manifest of either order of registration, field by field, has the names of the call registered first, so the two differ. |
| `WidthDomain.RequiredBits` | scripts/sg3-domain.ts:61-70 | Terminates with the least width that holds the value; throws exactly on negative values. |
| `WidthDomain.SmallestSupportedWidth` | scripts/sg3-domain.ts:72-77 | The least listed width with enough bits, if there is one. |
| `WidthDomain.WidthFor` | scripts/sg3-domain.ts:214-222 | Composed: the least listed width that holds the value. |
| `WidthDomain.RequiredIsMonotone` | scripts/sg3-domain.ts:61-70 | Larger values never need fewer bits. |
| `WidthDomain.ProductNeedsSumOfBits` | scripts/sg3-domain.ts:61-70 | A product needs at most as many bits as its factors together. |

## Left out

- WinnerChunks.WinnerStateTransition: says exactly when the call throws, not which of its invariants is reported first.
- WinnerChunks.Transition: one error stands for all of them, for the same reason.
- OperationManifest.DeriveCanonicalOperationManifest: says exactly when it throws, not which offending call is named.
- CanonicalJson.CanonicalJson: numbers are integers of at most 53 bits; fractions, exponents, NaN, infinities and negative zero are not modelled. Members are visited before their keys are sorted, which changes nothing as there is one error message.
- DrawLedger.Happen: the glue between participants and the ledger is not in the repository's TypeScript; a draw is posted as one allocation and one auto-save, each when positive, and a participant's deposit, withdrawal or claim as the ledger operation of that amount.
- RoundModel.DriveDraw: the driver is modelled on the reference state machine, without transactions, proofs and polling; its budget is the length of the candidate stream, its error messages carry no state number.
- Readiness flags and vector identity of the winner state: carried through unchanged by the source, so not fields here; the accepted ticket, which callers carry over, is kept in the state.
- Decimal-string encoding of integers in the winner oracle: integers are used; a negative number stands for a malformed one.
- Lower-casing of accounts and the `vault:account` key string: keys are pairs of a vault id and an already normalised account.
- `localeCompare` in the manifest's last sort: code-unit order is used.
- Code units in the debug selector: a Dafny character stands for one code unit.
- `checkpointSnapshot`, `balance`, `totalBalance`: direct reads of the state.
- Cost fields and means (`expectedAttempts`, `nearestRankP90Index`, `exactMean`): arithmetic on constants or a single formula.
- The large catalogues of circuits and their validators: finite checks on constants.
- Encrypted values, access control, homomorphic-cost measurement and hashing: opaque libraries; plaintext integers are used throughout.
- Solidity contracts, keeper, frontend, deployment tasks and live scripts: input and output, and calls into other systems.
- Round states after ACCEPTED: named in the enumeration, without methods in the reference model.

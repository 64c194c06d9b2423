# Verified model of the finance backend

A Dafny model of the backend's most intricate rules, and proofs of what they promise. It covers five
connected components.

* **The financial ledger.** Events are created, edited while pending, approved or rejected, reversed,
  corrected and archived; nothing is ever deleted. The table's CHECK constraints, unique indexes,
  foreign keys and history guard are predicates that every write has to pass (`Ledger.dfy`).
  `LedgerSafety.dfy` keeps one invariant through every command, `LedgerAccounts.dfy` proves that the
  books balance, and `LedgerHistory.dfy` proves what is never taken back and the shape of corrections.
* **Idempotent commands.** `Idempotency.dfy` models the lease-based records, `Commands.dfy` joins them to
  the ledger as the services and endpoints do, and `CommandSafety.dfy`, `CommandRuns.dfy` and
  `CommandReplays.dfy` prove at-most-once effects, no lost updates and faithful replays over whole
  runs. `CommandTexts.dfy` follows every stored amount back to the text that was submitted, and
  `CommandStories.dfy` holds the short runs in which a promise fails.
* **Keyset pagination and its signed cursor** (`Pagination.dfy`; `Base64Url.dfy`, `Calendar.dfy`, `CursorTexts.dfy`
  and `Cursors.dfy`; `CursorWalk.dfy` joins them).
* **Workspace ownership, membership and activation** (`Workspace.dfy`, `WorkspaceSafety.dfy`,
  `ActivationSafety.dfy`). `JointRuns.dfy` runs them together with the ledger.
* **Exact arithmetic, parsing and counting**: decimals and money (`Arithmetic.dfy`, `Decimals.dfy`,
  `DecimalText.dfy`, `MoneyModel.dfy`), the PNG chunk walk (`Receipts.dfy`) and the fixed-window limiter
  (`EndpointAbuse.dfy`).

Code that changes rows step by step is modelled as classes whose methods assign, insert and flush in the
source's order: `FinanceRepository.dfy`, `IdempotencyRepository.dfy`, `FinanceServices.dfy`,
`WorkspaceRepository.dfy`, and the two controls of `EndpointAbuse.dfy`. Each method is proved equal to a
function of the old state, and the theorems are about those functions. What each command answers and
changes is also proved in the fields a caller can look up, apart from the checks the commands share:
`LedgerAnswers.dfy`, `CommandAnswers.dfy` and `WorkspaceAnswers.dfy`.

## Conventions

* One installation has one workspace: bootstrap is the only code that creates one, and it runs once.
* A request is one atomic step, because it holds its row locks for its whole transaction. Where the order
  of the writes inside it matters, the intermediate states are modelled too (`FirstFlush`, `BothFlushes`,
  `ConfirmWrites`). An error that an endpoint turns into a response commits; one that escapes it rolls
  everything back (`Commands.RollsBack`).
* Stored amounts count ten-thousandths, as a `NUMERIC(24,4)` column holds them. Instants count
  microseconds. Clock readings, new identifiers and digests are parameters.
* Times are arbitrary in every theorem that does not say otherwise.

## Where the code and its promises differ

* Archiving a reversal always fails. The history guard also runs on updates, and by then the reversed
  event is no longer effective (`LedgerSafety.ArchiveGoesThrough` says exactly when,
  `CommandStories.ReversalCannotBeArchived` is a run).
* Activation never looks at a challenge's stored status. With a clock that goes back, a challenge marked
  expired comes back to life (`ActivationSafety.ExpiredChallengesRevive` says exactly when) and an issued
  one can be left on an active member (`ActivationSafety.IssuedStayPendingExactly`,
  `ActivationSafety.ActivationLeavesIssued`). `ActivationSafety.ClockSetBack` is a run with both;
  `ActivationSafety.SpentChallengesAreFinal` proves both promises for times that do not go back.
* No committed record is ever in progress, so no request is ever told that its command is already being
  processed or needs recovery (`CommandSafety.NotStartedChangesNothing`).
* A creation, and a correction with a replacement, validate their category before they look for their
  record. Their replays are refused when the category has been archived or no longer fits
  (`CommandReplays.ReplaysAreFaithful` says exactly when, `CommandStories.ReplayOfDeactivatedCategory` is a
  run).
* The version header is no part of a request's fingerprint. A recorded version mismatch is repeated even
  after the header has been corrected (`CommandReplays.FailuresRepeat`; a run:
  `CommandStories.CorrectedVersionFailsAlike`).
* After fourteen days a repeated command is executed again and always fails: it is spent
  (`CommandReplays.RetentionIsExact`, `CommandRuns.AtMostOnce`; a run:
  `CommandStories.RepetitionAfterRetention`).
* Adding money that is finer than its currency's scale rounds (`MoneyModel.AddRoundsFinerSums` says exactly
  when, `MoneyModel.HalfAYenRounds` is a case).
* The PNG walk does not ask for an image data chunk; chunk layout and checksums are those of sections 3.2
  and 3.4 of RFC 2083.

## Model

| member | source | states |
|---|---|---|
| `LedgerAccounts.BooksBalance` | backend/app/infrastructure/database/repositories/finance.py:605-745 | In every valid ledger and for each currency, the signed sum of everything approved equals the signed sum of the effective events that are not reversals |
| `LedgerAccounts.TotalsAgree` | backend/migrations/versions/20260814_0003_finance_foundation.py:331-344 | The conservation law for any rows in which reversed events and reversals are paired: the pairs cancel, the rest weigh the same in both totals |
| `LedgerAccounts.PairCancels` | backend/app/infrastructure/database/repositories/finance.py:660-688 | A reversal and the event it undoes add to zero in the books and count nothing in the balance |
| `LedgerAccounts.ReverseAdds` | backend/app/infrastructure/database/repositories/finance.py:605-745 | A reversal changes the balance by exactly minus the original plus any replacement; a refused one by nothing |
| `LedgerAccounts.CreateAdds` | backend/app/infrastructure/database/repositories/finance.py:338-403 | A new event counts at once when an administrator makes it and not at all otherwise |
| `LedgerAccounts.DecisionAdds` | backend/app/infrastructure/database/repositories/finance.py:528-603 | Approval adds the event's amount; rejection and refusal add nothing |
| `LedgerAccounts.EditAddsNothing` | backend/app/infrastructure/database/repositories/finance.py:405-526 | Editing a pending event leaves every balance alone |
| `LedgerAccounts.ArchiveAddsNothing` | backend/app/infrastructure/database/repositories/finance.py:747-807 | Archiving leaves every balance alone |
| `LedgerSafety.GuardedWritesGoThrough` | backend/app/infrastructure/database/repositories/finance.py:648-728 | From any valid ledger where the repository's checks pass, both flushes of a reversal are accepted by every CHECK, index, foreign key and guard rule if and only if the identifiers are new |
| `LedgerSafety.FlippingFirstIsRejected` | backend/migrations/versions/20260814_0003_finance_foundation.py:331-344 | Marking the original reversed first would be accepted, but the reversal after it would be refused by the guard |
| `LedgerSafety.ReverseKeepsValid` | backend/app/infrastructure/database/repositories/finance.py:605-745 | A reversal keeps the whole ledger invariant: pairing, uniqueness, acyclic replacement links, exact money |
| `LedgerSafety.CreateKeepsValid` | backend/app/infrastructure/database/repositories/finance.py:338-403 | Creation keeps the ledger invariant |
| `LedgerSafety.CreateGoesThrough` | backend/migrations/versions/20260814_0003_finance_foundation.py:263-266 | With a usable category the new row is stored exactly when its id and operation id are new, and is refused otherwise |
| `LedgerSafety.EditKeepsValid` | backend/app/infrastructure/database/repositories/finance.py:405-526 | A pending edit keeps the ledger invariant |
| `LedgerSafety.EditGoesThrough` | backend/migrations/versions/20260814_0003_finance_foundation.py:164-234 | The database never refuses an edit that passed the repository's checks |
| `LedgerSafety.DecideKeepsValid` | backend/app/infrastructure/database/repositories/finance.py:528-603 | A decision keeps the ledger invariant |
| `LedgerSafety.DecideGoesThrough` | backend/migrations/versions/20260814_0003_finance_foundation.py:195-212 | The database never refuses a decision that passed the repository's checks |
| `LedgerSafety.ArchiveKeepsValid` | backend/app/infrastructure/database/repositories/finance.py:747-807 | Archiving keeps the ledger invariant |
| `LedgerSafety.ArchiveGoesThrough` | backend/migrations/versions/20260814_0003_finance_foundation.py:318-344 | An archive the repository is ready to write succeeds if and only if the event is not a reversal; the guard refuses every reversal |
| `LedgerSafety.ReversalsStayPut` | backend/migrations/versions/20260814_0003_finance_foundation.py:331-344 | The guard refuses any update of a stored reversal |
| `LedgerSafety.PairKeepsLinks` | backend/migrations/versions/20260814_0003_finance_foundation.py:267-276 | Adding a reversal together with the flip of its target keeps links sound, unique, complete and acyclic |
| `LedgerSafety.InsertKeepsLinks` | backend/app/infrastructure/database/repositories/finance.py:690-718 | Attaching a replacement to a reversed, not yet replaced event keeps every link in order |
| `LedgerHistory.LifecycleIsSettled` | backend/app/infrastructure/database/repositories/finance.py:809-841 | Once an event is reversed, every later lifecycle query finds the very same reversal and the same replacement, or again none |
| `LedgerHistory.LifecycleIsUnique` | backend/app/infrastructure/database/repositories/finance.py:821-836 | In a valid ledger the lifecycle query has one possible answer |
| `LedgerHistory.CorrectionChainsEndEffective` | backend/app/infrastructure/database/repositories/finance.py:690-711 | A correction chain never meets itself and all its events but the last are reversed |
| `LedgerHistory.CorrectionChainsNeverFork` | backend/app/infrastructure/database/repositories/finance.py:829-836 | Two correction chains from one event agree as far as both go |
| `LedgerHistory.LinksAreFunctional` | backend/migrations/versions/20260814_0003_finance_foundation.py:267-276 | Each event has at most one reversal and one replacement, and reversals are never reversed nor replaced |
| `LedgerHistory.ReverseIsLater` | backend/app/infrastructure/database/repositories/finance.py:605-745 | A reversal deletes nothing, keeps every approved fact and every reversal, and links only to events that were still open |
| `LedgerHistory.ArchiveIsLater` | backend/app/infrastructure/database/repositories/finance.py:747-807 | The same for archiving |
| `LedgerHistory.EditIsLater` | backend/app/infrastructure/database/repositories/finance.py:405-526 | The same for pending edits |
| `LedgerHistory.DecisionIsLater` | backend/app/infrastructure/database/repositories/finance.py:528-603 | The same for decisions |
| `LedgerHistory.CreateIsLater` | backend/app/infrastructure/database/repositories/finance.py:338-403 | The same for creation |
| `LedgerHistory.LaterTransitively` | backend/migrations/versions/20260814_0003_finance_foundation.py:310-346 | These guarantees compose over any number of steps |
| `LedgerHistory.SubmissionsAreStored` | backend/app/infrastructure/database/repositories/finance.py:338-403 | The one row a creation adds holds what was submitted, its author and operation, and counts at once, reviewed by its author, only for an administrator |
| `LedgerHistory.EditsAreUndone` | backend/app/infrastructure/database/repositories/finance.py:438-518 | An accepted edit can be taken back by naming its fields again with their old values, if and only if the event's former category is still active and covers it; the event then says what it said before and nothing else has changed |
| `LedgerHistory.EditLaws` | backend/app/infrastructure/database/repositories/finance.py:492-518 | The laws that determine editing: naming everything stores a submission, repeating what a row says changes nothing, two edits are the one in which the later wins, and old values undo |
| `LedgerHistory.DecisionsAreStored` | backend/app/infrastructure/database/repositories/finance.py:582-591 | A decision records decider, time, reason and explanation and touches nothing that was submitted and no archive field |
| `LedgerHistory.CorrectionsAreStored` | backend/app/infrastructure/database/repositories/finance.py:660-745 | A reversal repeats its original on the other side and a replacement holds what was submitted, under the right operation ids and links, both reviewed by their maker; the original keeps its review and archive fields |
| `LedgerHistory.ArchivesAreStored` | backend/app/infrastructure/database/repositories/finance.py:793-807 | Archiving records who, when and why, and keeps submission, review, approval and posting |
| `FinanceRepository.Repository.ValidateEventCategory` | backend/app/infrastructure/database/repositories/finance.py:1005-1034 | Answers with exactly the error category validation raises, or none: an income fits a category for income or for both, an expense one for expenses or for both, and the activity has to be the category's |
| `FinanceRepository.Repository.CreateEvent` | backend/app/infrastructure/database/repositories/finance.py:338-403 | The stored rows and the answer are those of the ledger's creation, rejected inserts included |
| `FinanceRepository.Repository.UpdatePendingEvent` | backend/app/infrastructure/database/repositories/finance.py:405-526 | Field by field assignment gives exactly the edited row, or the error of the first check that fails |
| `FinanceRepository.Repository.DecidePendingEvent` | backend/app/infrastructure/database/repositories/finance.py:528-603 | The decided row and evidence, or the first failing check's error |
| `FinanceRepository.Repository.ReverseEvent` | backend/app/infrastructure/database/repositories/finance.py:605-745 | Both flushes in their order, undone together when one is refused; the result is the three rows written |
| `FinanceRepository.Repository.ArchiveEvent` | backend/app/infrastructure/database/repositories/finance.py:747-807 | The archived row, or the error, or the guard's refusal |
| `FinanceRepository.Repository.GetLifecycleResult` | backend/app/infrastructure/database/repositories/finance.py:809-841 | Finds the event, its effective reversal and its replacement, exactly when they are stored |
| `Idempotency.ClaimKeepsRecords` | backend/migrations/versions/20260815_0004_idempotency_records.py:69-118 | Claiming keeps every CHECK and both unique constraints |
| `Idempotency.FinishKeepsRecords` | backend/app/infrastructure/database/repositories/idempotency.py:166-203 | Finishing under a lease keeps every CHECK and both unique constraints |
| `Idempotency.OutcomesAreKept` | backend/app/infrastructure/database/repositories/idempotency.py:101-121 | A finished record stays as it is until a claim under its own key finds it expired |
| `Idempotency.FinishedIsFinal` | backend/app/infrastructure/database/repositories/idempotency.py:187-190 | Finishing never touches a record that is already finished |
| `Idempotency.StartedMeansExclusive` | backend/app/infrastructure/database/repositories/idempotency.py:62-99 | A claim starts only when every record under its key has expired, and stores a fresh lease |
| `Idempotency.InProgressBlocks` | backend/app/infrastructure/database/repositories/idempotency.py:123-128 | While a record is in progress no claim under its key starts; it is told to wait or to recover by the lease's end |
| `Idempotency.LeasesWorkOnce` | backend/app/modules/application_support/idempotency.py:97-131 | A lease finishes its record once; a second completion or failure with the same claim is refused and changes nothing |
| `Idempotency.OutcomesAreStorable` | backend/app/modules/application_support/idempotency.py:47-60 | An outcome can be constructed if and only if the table accepts it |
| `IdempotencyRepository.Repository.Claim` | backend/app/infrastructure/database/repositories/idempotency.py:49-128 | Insert, look-up, actor and fingerprint checks, expiry and lease decide exactly the claim and the stored records |
| `IdempotencyRepository.Repository.SelectForUpdate` | backend/app/infrastructure/database/repositories/idempotency.py:87-96 | Finds the one record under a scope key, or none |
| `IdempotencyRepository.Repository.Finish` | backend/app/infrastructure/database/repositories/idempotency.py:166-203 | Overwrites state, lease, outcome and expiry only for the holder of the lease |
| `IdempotencyRepository.Repository.CreateAfterExpiry` | backend/app/infrastructure/database/repositories/idempotency.py:205-237 | A new record in place of the expired one, or an integrity failure |
| `IdempotencyRepository.Repository.FinishClaim` | backend/app/modules/application_support/idempotency.py:97-131 | The service lets only a started claim through to the repository |
| `CommandSafety.HandleKeepsValid` | backend/app/api/financial_events.py:880-1022 | Every committed request leaves a valid ledger, sound records and no claim in progress |
| `CommandSafety.ExecutionEnds` | backend/app/modules/household_finance/lifecycle.py:204-221 | A started request commits exactly its action's ledger and one finished record, or is rolled back |
| `CommandSafety.FailuresAreRecordedOrRolledBack` | backend/app/modules/household_finance/lifecycle.py:293-312 | Every failure of an admitted request is either recorded for replays or rolls the transaction back |
| `CommandSafety.NotStartedChangesNothing` | backend/app/modules/household_finance/events.py:245-261 | A request whose claim does not start changes nothing and is never told that another run is in progress |
| `CommandSafety.PreparedIsAccepted` | backend/app/modules/household_finance/lifecycle.py:223-258 | A prepared event has exact money in a supported currency, bounded texts and a fitting category |
| `CommandSafety.PerformSpends` | backend/app/infrastructure/database/repositories/finance.py:570-580 | A command that took effect leaves the ledger in a state where it is spent |
| `CommandSafety.SpentFails` | backend/app/infrastructure/database/repositories/finance.py:648-658 | A spent command always fails and writes nothing |
| `CommandSafety.SpentForGood` | backend/migrations/versions/20260814_0003_finance_foundation.py:314-330 | Spent stays spent in every later ledger |
| `CommandSafety.RequestsTakeEffect` | backend/app/modules/household_finance/lifecycle.py:174-221 | A request succeeds as a first run if and only if it is admitted, its claim starts and its action is ready; nothing in the database refuses it otherwise |
| `CommandSafety.PreparedTakesEffect` | backend/app/infrastructure/database/repositories/finance.py:338-807 | The condition under which each kind of action takes effect, in both directions |
| `CommandRuns.FirstRequestTakesEffect` | backend/app/modules/household_finance/events.py:205-295 | On a fresh workspace a first creation does take effect, so the run theorems speak of something |
| `CommandRuns.OneWritePerVersion` | backend/app/infrastructure/database/repositories/finance.py:438-785 | No lost updates: of all the edits, reversals, corrections and archivings of a run that name the same version of an event, whoever sends them, only the first writes |
| `CommandTexts.SubmittedTextIsShown` | backend/app/api/financial_events.py:408-414 | Every row of every reachable ledger shows an amount text that a step of the run submitted and that took effect, padded to its currency's scale: the creation's, the last edit's, the replacement's, or for a reversal the original's |
| `CommandTexts.CreatedTextIsShown` | backend/app/api/financial_events.py:408-414 | The answer to a creation shows the submitted amount padded to the currency's scale |
| `CommandTexts.ReversalsShowTheirOriginals` | backend/app/infrastructure/database/repositories/finance.py:660-688 | In every reachable ledger a reversal shows the very text its original shows |
| `CommandTexts.RunsAreExplained` | backend/app/shared_kernel/money.py:42-81 | In every reachable ledger each stored amount and currency are what submitting the row's text gives |
| `CommandTexts.TextsAreSubmitted` | backend/app/api/financial_events.py:408-414 | Every text a row shows was submitted by a step of the run that took effect |
| `CommandRuns.RunsStayValid` | backend/app/infrastructure/database/repositories/finance.py:338-807 | Over any run of requests, edits, category and access changes the database stays valid |
| `CommandRuns.RunsOnlyMoveForward` | backend/migrations/versions/20260814_0003_finance_foundation.py:310-346 | Over any run no row is lost and no approved fact, decision or reversal changes |
| `CommandRuns.RunsBalance` | backend/app/infrastructure/database/repositories/finance.py:605-745 | Conservation in every ledger reachable from an empty database |
| `CommandRuns.StoredMoneyIsShown` | backend/app/api/financial_events.py:408-413 | In every reachable ledger the exactness check of the representation passes for every row |
| `CommandRuns.CorrectionChainsInRuns` | backend/app/infrastructure/database/repositories/finance.py:690-711 | The shape of correction chains in every reachable ledger |
| `CommandRuns.AtMostOnce` | backend/app/infrastructure/database/repositories/idempotency.py:107-119 | Over any run a command with an operation id takes effect at most once, under any key, sender or version and after any expiry |
| `CommandRuns.OnlyEffectiveRequestsWrite` | backend/app/modules/household_finance/lifecycle.py:144-172 | A request that is refused or replayed leaves the ledger alone |
| `CommandReplays.ReplaysAreFaithful` | backend/app/modules/household_finance/lifecycle.py:144-203 | Within retention and with a valid context, the repeated request returns the first success again and changes nothing, in every later state; one that names a category is refused instead exactly when the category no longer fits |
| `CommandReplays.FailuresRepeat` | backend/app/modules/household_finance/lifecycle.py:293-312 | A committed failure is answered again with the same exception, even when its cause is gone |
| `CommandReplays.RetentionIsExact` | backend/app/infrastructure/database/repositories/idempotency.py:107-119 | The repeated request succeeds if and only if its record has not expired |
| `CommandReplays.SuccessIsAnsweredAgain` | backend/app/modules/household_finance/events.py:466-492 | Every kind of success is found again in every later valid ledger |
| `CommandReplays.AdmittedAgain` | backend/app/modules/household_finance/events.py:231-244 | Of the checks before a claim only the category check can change its answer for a repeated request |
| `CommandReplays.KeysBelongToOneRequest` | backend/app/infrastructure/database/repositories/idempotency.py:97-105 | A key in use turns away other members as not found and other requests as reuse, and changes nothing |
| `CommandReplays.OperationIdsBelongToOneKey` | backend/migrations/versions/20260815_0004_idempotency_records.py:111-117 | An operation id recorded under one key starts nothing under another |
| `CommandStories.ReversalCannotBeArchived` | backend/migrations/versions/20260814_0003_finance_foundation.py:331-344 | A run: a creation, its reversal, and an archive of the reversal, which the guard refuses and the request rolls back |
| `CommandStories.ReplayOfDeactivatedCategory` | backend/app/modules/household_finance/events.py:231-244 | A run: a creation succeeds, its category is deactivated, and repeating the creation is refused as not found |
| `CommandStories.CorrectedVersionFailsAlike` | backend/app/modules/household_finance/lifecycle.py:293-312 | A run: a reversal at a wrong version fails, and repeated with the event's real version under the same key it fails alike |
| `CommandStories.RepetitionAfterRetention` | backend/app/infrastructure/database/repositories/idempotency.py:107-119 | A run: a creation is answered again if and only if the repetition comes before fourteen days have passed |
| `FinanceServices.Services.Begin` | backend/app/modules/household_finance/lifecycle.py:276-291 | The claim, with running and stale claims turned into their exceptions |
| `FinanceServices.Services.Conclude` | backend/app/modules/household_finance/lifecycle.py:293-328 | The recorded failure or completion, and the exception or reply passed on |
| `FinanceServices.Services.ReplayLifecycle` | backend/app/modules/household_finance/lifecycle.py:188-203 | The replay of a reversal or correction from its recorded outcome |
| `FinanceServices.Services.Serve` | backend/app/modules/household_finance/lifecycle.py:174-221 | One service call, from its checks to its finished record, as one function of the database |
| `FinanceServices.Services.Handle` | backend/app/api/financial_events.py:880-1022 | The endpoint's commit or rollback, keeping the database valid |
| `LedgerAnswers.CreateAnswers` | backend/app/infrastructure/database/repositories/finance.py:1005-1034 | A creation is refused as not found, denied or under an invalid category exactly for these causes, in the actor's and category's own fields: income meets a category for expenses, an expense one for income, or the category names another activity |
| `LedgerAnswers.CreateSucceedsExactly` | backend/app/infrastructure/database/repositories/finance.py:338-403 | An acceptable draft is stored if and only if the actor is let in and no Advisor, the category is active and fits, and both identifiers are new |
| `LedgerAnswers.EditAnswers` | backend/app/infrastructure/database/repositories/finance.py:421-470 | An edit is denied, stale or in conflict exactly for these causes in the row's own fields |
| `LedgerAnswers.EditCategoryAnswers` | backend/app/infrastructure/database/repositories/finance.py:471-490 | An edit that reaches its event succeeds if and only if the category it leaves the event under is active and fits; it is an invalid category exactly when income meets expenses, an expense meets income, or the activities differ |
| `LedgerAnswers.DecisionAnswers` | backend/app/infrastructure/database/repositories/finance.py:528-580 | A decision succeeds, and each of its refusals happens, exactly under these conditions in the row's own fields |
| `LedgerAnswers.ReversalAnswers` | backend/app/infrastructure/database/repositories/finance.py:617-658 | A reversal is refused as not found, denied, stale or in lifecycle conflict exactly for these causes in the row's own fields |
| `LedgerAnswers.ArchiveAnswers` | backend/app/infrastructure/database/repositories/finance.py:758-792 | The same for archiving |
| `LedgerAnswers.ArchiveSucceedsExactly` | backend/app/infrastructure/database/repositories/finance.py:747-807 | An event is archived if and only if it is decided, not archived, at the expected version and no reversal, by an Admin who is let in |
| `LedgerAnswers.OutsidersGetNothing` | backend/app/infrastructure/database/repositories/finance.py:99-110 | A read answers not found if and only if finance is off or the actor is no active member in its role |
| `LedgerAnswers.ApprovedFactsAreGuarded` | backend/migrations/versions/20260814_0003_finance_foundation.py:310-330 | No update of an approved event goes through that changes its money, direction, date, kind, activity, category or operation |
| `LedgerAnswers.ReversalsAreGuarded` | backend/migrations/versions/20260814_0003_finance_foundation.py:331-344 | A row that reverses an event is accepted only against an approved, effective event of the same money and the other direction, and beside no other effective reversal of it |
| `LedgerAnswers.LinksAreGuarded` | backend/migrations/versions/20260814_0003_finance_foundation.py:235-276 | No operation is stored twice and no row names a category or an event that is not there |
| `LedgerAnswers.AmountsAreGuarded` | backend/migrations/versions/20260814_0003_finance_foundation.py:164-184 | Stored amounts are positive and fit the column, and currencies are three capital letters |
| `CommandAnswers.CreationIsAdmitted` | backend/app/modules/household_finance/events.py:205-244 | A submission is denied, malformed, not found or under an invalid category exactly for these causes, in this precedence |
| `CommandAnswers.ReplacementIsAdmitted` | backend/app/modules/household_finance/lifecycle.py:223-258 | A replacement's category is judged like a creation's, before its texts |
| `CommandAnswers.OthersAreAdmitted` | backend/app/modules/household_finance/lifecycle.py:260-274 | The other commands are for Admins and need a confirmation, or a reason and explanation that fit the decision |
| `CommandAnswers.EditIsAdmitted` | backend/app/modules/household_finance/events.py:304-370 | An edit that names nothing, or names an amount or a text badly, is refused before its event is looked at; the named fields are handed on as they are |
| `CommandAnswers.StrangersClaimNothing` | backend/app/infrastructure/database/repositories/idempotency.py:49-62 | Who is no active member, or may not use the operation, claims nothing |
| `CommandAnswers.FreshKeyClaims` | backend/app/infrastructure/database/repositories/idempotency.py:62-99 | Under an unused key a claim starts, with a two-minute lease, if and only if its identifiers are new |
| `CommandAnswers.UsedKeyClaims` | backend/app/infrastructure/database/repositories/idempotency.py:97-128 | Under a used key the record decides what the claim gets: another member's, another request's, running, abandoned, finished or expired |
| `CommandAnswers.FinishAnswers` | backend/app/infrastructure/database/repositories/idempotency.py:166-203 | Only the holder of the lease finishes a record, which then keeps its outcome for fourteen days |
| `CommandAnswers.CreationEffect` | backend/app/modules/household_finance/events.py:245-295 | A creation that takes effect adds exactly one row, field by field what was submitted, and answers it |
| `CommandAnswers.DecisionEffect` | backend/app/modules/household_finance/events.py:383-464 | A decision that takes effect changes exactly the row it names, in its review fields |
| `CommandAnswers.CorrectionEffect` | backend/app/modules/household_finance/lifecycle.py:174-221 | A reversal or correction that takes effect changes exactly its original and adds its reversal, field by field the original on the other side, and the replacement that was submitted |
| `CommandAnswers.ArchiveEffect` | backend/app/modules/household_finance/lifecycle.py:133-172 | Archiving that takes effect changes exactly the row it names, in its archive fields |
| `CommandAnswers.SuccessIsRecorded` | backend/app/modules/household_finance/lifecycle.py:314-328 | A success leaves a finished record with its code, status and the version of the event it answered |
| `CommandAnswers.FailureIsRecorded` | backend/app/modules/household_finance/lifecycle.py:293-312 | A failed execution keeps the ledger and commits a record exactly for the failures a repetition should meet again |
| `CommandAnswers.ReplayAnswers` | backend/app/modules/household_finance/events.py:466-492 | Whatever a record holds, a repetition raises a recorded failure again, and otherwise needs a fitting outcome, access, and rows that show it |
| `CommandAnswers.OnlyStartedClaimsFinish` | backend/app/modules/application_support/idempotency.py:97-131 | Only a started claim with its lease is handed on to be finished |
| `CommandAnswers.StoredRowsAreSound` | backend/migrations/versions/20260814_0003_finance_foundation.py:164-234 | What every row of a reachable ledger shows of amounts, texts, states and evidence |
| `CommandAnswers.StoredRecordsAreSound` | backend/migrations/versions/20260815_0004_idempotency_records.py:69-118 | Every record of a reachable database is finished and keeps an outcome until it expires |
| `WorkspaceAnswers.OnlyTheOwnerProvisions` | backend/app/infrastructure/database/repositories/member_activation.py:259-276 | A member is provisioned by the present owner alone; a present member who is no Admin is denied, anybody else is not found, and nothing changes |
| `WorkspaceAnswers.OnlyTheOwnerRestarts` | backend/app/infrastructure/database/repositories/member_activation.py:259-276 | The same for restarting an activation |
| `WorkspaceAnswers.OnlyTheOwnerMutates` | backend/app/infrastructure/database/repositories/member_lifecycle.py:171-188 | The same for changing roles and statuses |
| `WorkspaceAnswers.AccessFollowsMembers` | backend/app/infrastructure/database/repositories/finance.py:1161-1181 | Finance lets in exactly the active members of active accounts, in their own roles, while it is switched on |
| `WorkspaceAnswers.ProvisionAnswers` | backend/app/infrastructure/database/repositories/member_activation.py:57-113 | Under a known address provisioning succeeds if and only if the account is usable, no member yet, and the identifiers are new |
| `WorkspaceAnswers.NewAddressAnswers` | backend/app/infrastructure/database/repositories/member_activation.py:71-105 | Under a new address it succeeds if and only if the identifiers are new |
| `WorkspaceAnswers.KnownAddressChanges` | backend/app/infrastructure/database/repositories/member_activation.py:65-105 | Under a known address exactly one pending membership and one challenge for 24 hours are added |
| `WorkspaceAnswers.NewAddressChanges` | backend/app/infrastructure/database/repositories/member_activation.py:71-105 | Under a new address a pending account without a password is added besides |
| `WorkspaceAnswers.RestartAnswers` | backend/app/infrastructure/database/repositories/member_activation.py:115-147 | A restart succeeds, and each refusal happens, exactly under these conditions |
| `WorkspaceAnswers.RestartChanges` | backend/app/infrastructure/database/repositories/member_activation.py:148-176 | A restart revokes the membership's issued challenges, adds one and counts the membership up, and changes nothing else |
| `WorkspaceAnswers.ActivationAnswers` | backend/app/infrastructure/database/repositories/member_activation.py:178-230 | Activation succeeds with a challenge if and only if nobody has used or revoked it, it comes in time, and member and account may be activated; otherwise at most its status changes, to expired |
| `WorkspaceAnswers.ActivationChanges` | backend/app/infrastructure/database/repositories/member_activation.py:231-243 | A successful activation makes member and account active, gives a pending account its password, counts each of the three rows up by one, and changes nothing else |
| `WorkspaceAnswers.MutationAnswers` | backend/app/infrastructure/database/repositories/member_lifecycle.py:87-138 | A mutation succeeds, and each refusal happens, exactly under these conditions |
| `WorkspaceAnswers.MutationGuards` | backend/app/modules/member_lifecycle/service.py:60-140 | Making somebody an Admin and impossible versions are refused before anything is looked up |
| `WorkspaceAnswers.MutationChanges` | backend/app/infrastructure/database/repositories/member_lifecycle.py:139-169 | A mutation changes one membership as named, ends the sessions of its account and of nobody else unless it brings the member back, and revokes challenges only when it revokes |
| `WorkspaceAnswers.InitiationAnswers` | backend/app/infrastructure/database/repositories/ownership_transfer.py:106-158 | A transfer is opened, and each refusal happens, exactly under these conditions |
| `WorkspaceAnswers.InitiationChanges` | backend/app/infrastructure/database/repositories/ownership_transfer.py:159-184 | Open transfers are expired when due and cancelled otherwise, one is added, and nothing else changes |
| `WorkspaceAnswers.ConfirmationAnswers` | backend/app/infrastructure/database/repositories/ownership_transfer.py:186-281 | A confirmation succeeds if and only if the target itself presents the value in time while both parties are present; a due transfer is marked expired |
| `WorkspaceAnswers.ConfirmationChanges` | backend/app/infrastructure/database/repositories/ownership_transfer.py:283-308 | A confirmation changes the two memberships, the workspace's owner, the transfer and the two parties' sessions, and nothing else |
| `WorkspaceAnswers.CancellationAnswers` | backend/app/infrastructure/database/repositories/ownership_transfer.py:327-387 | A cancellation succeeds, expires a due transfer, or is refused, exactly under these conditions |
| `WorkspaceAnswers.StoredTransfersAreSound` | backend/migrations/versions/20260809_0002_security_records.py:262-310 | What every transfer of a run from bootstrap shows of its parties, its times and the evidence of its status |
| `WorkspaceAnswers.StoredChallengesAreSound` | backend/migrations/versions/20260809_0002_security_records.py:205-240 | What every challenge of such a run shows of its times, its evidence and its membership |
| `WorkspaceAnswers.InstallationsBegin` | backend/app/infrastructure/database/repositories/bootstrap.py:72-106 | An installation begins with one active account with a password and its active Admin, the owner |
| `Pagination.PagesTile` | backend/app/infrastructure/database/repositories/finance.py:130-210 | On a fixed ledger, following next positions to the end gives exactly the sorted selection, and terminates |
| `Pagination.WalkListsEveryEventOnce` | backend/app/infrastructure/database/repositories/finance.py:190-210 | A walk from the start lists every visible matching event, nothing else, in order and each once |
| `Pagination.ListAgreesWithLookup` | backend/app/infrastructure/database/repositories/finance.py:113-128 | Without filters and with every archive state, the list shows exactly the events the single-event query shows |
| `Pagination.ReadersSeeExactly` | backend/app/infrastructure/database/repositories/finance.py:113-145 | Without filters the list shows an event, and the single-event query finds it, if and only if it is stored and is the Contributor's own, or approved for an Advisor, or anything for an Admin |
| `Pagination.WalkShowsExactly` | backend/app/infrastructure/database/repositories/finance.py:130-188 | A walk shows a stored event if and only if the actor may read it, every filter that is set lets it through and it comes after the start |
| `Pagination.WalkIsNewestFirst` | backend/app/infrastructure/database/repositories/finance.py:190-197 | What a walk shows is newest first, by day, then time of creation, then identifier |
| `Pagination.PagesAreFull` | backend/app/infrastructure/database/repositories/finance.py:198-210 | A page is as full as it can be and names the next position exactly when something is left |
| `Pagination.ListedOnceWhileChanging` | backend/app/infrastructure/database/repositories/finance.py:173-188 | While the ledger changes between pages, an event that keeps its place and keeps matching is returned exactly once if it follows the start and never otherwise |
| `Pagination.SettledEventsAreListedOnce` | backend/app/infrastructure/database/repositories/finance.py:147-150 | An approved event listed with the archived ones is returned exactly once however the ledger moves on |
| `Pagination.PageIsAnInterval` | backend/app/infrastructure/database/repositories/finance.py:175-187 | A page holds exactly what follows its start up to and including its next position |
| `Pagination.NextSelectsTheRest` | backend/app/infrastructure/database/repositories/finance.py:202-210 | The next page's selection is what the page left over |
| `Pagination.SortedIsTheOnlyOrder` | backend/app/infrastructure/database/repositories/finance.py:192-196 | The order is total: a set of positions has one ascending list |
| `Pagination.ApprovedPositionsAreFixed` | backend/app/infrastructure/database/repositories/finance.py:457-498 | An approved event never moves in the list; before that only a change of its date moves it |
| `Pagination.Narrow` | backend/app/infrastructure/database/repositories/finance.py:137-188 | The clauses added one by one select exactly the visible, matching events after the position |
| `Pagination.OrderBy` | backend/app/infrastructure/database/repositories/finance.py:190-197 | The rows come out as the sorted list of their positions |
| `Pagination.ListVisibleEvents` | backend/app/infrastructure/database/repositories/finance.py:130-210 | One page: the rows of its positions and its next position, or not found without access |
| `Cursors.CursorsComeBack` | backend/app/api/financial_event_cursors.py:29-98 | A cursor gives its position back to its own scope until its expiry second, and is refused in every other scope and later; of the parsers only that they read back the texts that are signed is assumed |
| `Cursors.EncodedCursorsAreShort` | backend/app/api/financial_event_cursors.py:41-64 | Every encoded cursor is ASCII and at most 361 characters long, well within the 1024 that are read |
| `Cursors.AcceptedCursorsAreSigned` | backend/app/api/financial_event_cursors.py:66-76 | Whatever decodes consists of a payload and a signature the keyed digest confirms |
| `Cursors.MalformedCursorsAreRefused` | backend/app/api/financial_event_cursors.py:62-76 | Nothing is accepted that is empty, longer than 1024 characters, not seven-bit or not a payload with a signature of 64 characters that the digest confirms |
| `Cursors.SignedPayloadAnswers` | backend/app/api/financial_event_cursors.py:77-98 | A signed payload is accepted if and only if it is read, of version 1 and the expected scope, not over, and names a date, an instant and an identifier |
| `CursorTexts.PayloadsAreRead` | backend/app/api/financial_event_cursors.py:110-126 | A strict reader of the compact object gives back the payload that was printed |
| `CursorTexts.PayloadTextsAreUnique` | backend/app/api/financial_event_cursors.py:110-114 | The signed object text determines its payload: no two payloads print alike |
| `CursorTexts.DateTimesAreRead` | backend/app/api/financial_event_cursors.py:49-92 | A strict reader gives back the instant whose text, with or without a fraction of a second, was printed |
| `CursorTexts.DatesAreRead` | backend/app/api/financial_event_cursors.py:48-91 | The same for dates |
| `CursorTexts.UuidsAreRead` | backend/app/api/financial_event_cursors.py:50-95 | The same for identifiers |
| `Cursors.ReadersCanBeTrusted` | backend/app/api/financial_event_cursors.py:110-126 | Strict readers of the printed formats meet everything the cursor theorems assume of the parsers |
| `Cursors.TrustIsConsistent` | backend/app/api/financial_event_cursors.py:110-126 | The assumptions about digest and parsers can all be met at once by readers that really parse |
| `Calendar.MomentsAreExact` | backend/app/api/financial_event_cursors.py:48-92 | The calendar fields of an instant are valid and name exactly that instant |
| `Calendar.DayNumbersAreExact` | backend/app/api/financial_event_cursors.py:48-91 | A numbered day is a date of the years 1 to 9999 if and only if its number is at most 3652059 |
| `CursorWalk.ClientsSeeTheList` | backend/app/api/financial_events.py:587-652 | A client that hands each cursor back within its life collects exactly the sorted selection, as soon as it has asked for enough pages and not before |
| `Base64Url.DecodeUndoesEncode` | backend/app/api/financial_event_cursors.py:110-120 | Strict decoding with restored padding undoes unpadded base64url encoding |
| `Base64Url.EncodeShape` | backend/app/api/financial_event_cursors.py:114-114 | The encoded text stays in the alphabet and has the exact length |
| `Decimals.DeclaredSpecsAreServed` | backend/app/shared_kernel/decimals.py:52-60 | Every declared envelope fits the 50-digit context |
| `Decimals.DeclaredEnvelopes` | backend/app/shared_kernel/decimals.py:52-56 | Each declared envelope accepts exactly the finite values with its own numbers of digits |
| `Decimals.ValidateExactly` | backend/app/shared_kernel/decimals.py:78-88 | Validation accepts exactly the values of the envelope and names the failure otherwise |
| `Decimals.QuantizeExactly` | backend/app/shared_kernel/decimals.py:111-123 | Quantisation fails with OUT_OF_RANGE exactly when the rounded magnitude reaches the bound, and otherwise returns the rounded value; the 50-digit context adds no failure |
| `Decimals.QuantizeIsNearest` | backend/app/shared_kernel/decimals.py:117-120 | The result is a nearest multiple, ties going to the even one |
| `Decimals.QuantizeIsMonotone` | backend/app/shared_kernel/decimals.py:111-123 | Quantisation keeps order |
| `Decimals.QuantizeIsOdd` | backend/app/shared_kernel/decimals.py:111-123 | Quantising the negation negates the result |
| `Decimals.QuantizeIsIdempotent` | backend/app/shared_kernel/decimals.py:111-123 | Quantising twice changes nothing more |
| `Decimals.QuantizeKeepsExact` | backend/app/shared_kernel/decimals.py:111-123 | A value already at the scale is kept |
| `Decimals.SumIsExact` | backend/app/shared_kernel/decimals.py:126-139 | Under the guarded context the sum of two envelope values is exact |
| `DecimalText.MatchesExactlyNumerals` | backend/app/shared_kernel/decimals.py:58-59 | The grammar accepts exactly the texts of well-formed numerals, each with one reading |
| `DecimalText.ParsingUndoesPrinting` | backend/app/shared_kernel/decimals.py:91-148 | Parsing the canonical text of a value returns the value |
| `DecimalText.PrintingUndoesParsing` | backend/app/shared_kernel/decimals.py:91-148 | Printing a parsed text gives that text padded with zeros to the scale |
| `DecimalText.CanonicalForm` | backend/app/shared_kernel/decimals.py:142-148 | Canonical text is a plain decimal at the fixed scale, without exponent or negative zero |
| `DecimalText.PrintingAnswers` | backend/app/shared_kernel/decimals.py:142-148 | Printing fails exactly when validation does or the value is finer than the scale, with their own errors |
| `MoneyModel.FromCalculatedExactly` | backend/app/shared_kernel/money.py:61-67 | Money built from a calculated amount is the rounded amount, equal to it exactly when it was at the currency's scale |
| `MoneyModel.RepresentationIsExact` | backend/app/api/financial_events.py:408-413 | The stored-money check passes for a column value if and only if it is at its currency's scale |
| `MoneyModel.SubmittedTextIsPrintedBack` | backend/app/shared_kernel/money.py:42-81 | An accepted amount is stored without rounding and printed back as submitted, padded to the currency's scale |
| `MoneyModel.SubmittedIsExact` | backend/app/shared_kernel/money.py:42-59 | Every accepted submission is stored exactly under its own currency |
| `MoneyModel.SubmittedIsShown` | backend/app/shared_kernel/money.py:42-81 | From the submitted pair to the text shown for the stored column |
| `MoneyModel.AddIsExact` | backend/app/shared_kernel/money.py:87-91 | At the currency's scale addition is exact, and fails exactly when the sum leaves the envelope |
| `MoneyModel.SubtractIsExact` | backend/app/shared_kernel/money.py:93-97 | The same for subtraction |
| `MoneyModel.AdditionIsUndone` | backend/app/shared_kernel/money.py:87-97 | Subtracting what was added gives the first amount back |
| `MoneyModel.CurrenciesDoNotMix` | backend/app/shared_kernel/money.py:87-97 | Amounts are called a mismatch if and only if their currencies differ |
| `MoneyModel.RegisteredCurrencies` | backend/app/shared_kernel/currency.py:21-53 | Which codes are registered with which scales, which are unsupported and which are no codes |
| `MoneyModel.SubmissionAnswers` | backend/app/shared_kernel/money.py:42-59 | A submitted pair is accepted if and only if the code is registered and the text is a numeral at its scale, more than zero and within the storage column |
| `MoneyModel.AddRoundsFinerSums` | backend/app/shared_kernel/money.py:61-91 | Off the currency's scale addition is exact if and only if the sum happens to be at it |
| `MoneyModel.HalfAYenRounds` | backend/app/shared_kernel/money.py:61-91 | Two valid amounts of yen, a half and one, whose sum comes out as two |
| `MoneyModel.NewMoneyIsValid` | backend/app/shared_kernel/money.py:39-40 | Construction succeeds exactly inside the storage envelope |
| `Receipts.ValidPng` | backend/app/modules/household_finance/receipts.py:475-497 | Accepts exactly the signature followed by the serialization of an acceptable chunk list with correct checksums and nothing after it, and, told in bytes, exactly the inputs of the next row |
| `Receipts.PngsInBytes` | backend/app/modules/household_finance/receipts.py:475-497 | The accepted inputs, byte by byte: from each chunk's place the length, the kind, and the checksum of kind and data in the last four bytes, most significant first |
| `Receipts.EncodingIsUnique` | backend/app/modules/household_finance/receipts.py:475-497 | A byte string serializes at most one acceptable chunk list |
| `Receipts.ReadChunk` | backend/app/modules/household_finance/receipts.py:481-489 | Length and kind of the chunk at an offset, and whether it is good: it fits the input, bears a known name, and its last four bytes are the checksum of kind and data |
| `Receipts.BigEndianRoundTrip` | backend/app/modules/household_finance/receipts.py:481-487 | Four-byte big-endian numbers read back as written |
| `EndpointAbuse.SlidingIntervalBound` | backend/app/modules/identity_security/endpoint_abuse.py:56-82 | Any interval one window long holds at most twice the limit less one of a subject's allowed requests |
| `EndpointAbuse.SlidingIntervalBoundIsExact` | backend/app/modules/identity_security/endpoint_abuse.py:56-82 | Under every policy and on either side, some history of requests reaches the bound |
| `EndpointAbuse.LogsAreTheAdmittedOnes` | backend/app/modules/identity_security/endpoint_abuse.py:56-126 | A sequence of times is what some history of requests lets through if and only if the counter admits it time by time |
| `EndpointAbuse.StateIsRecomputed` | backend/app/modules/identity_security/endpoint_abuse.py:118-126 | The stored window equals the one recomputed from the log of allowed times |
| `EndpointAbuse.RefusedRequestsLeaveNoTrace` | backend/app/modules/identity_security/endpoint_abuse.py:76-79 | A refused request, whichever side refused it, changes no later state |
| `EndpointAbuse.SingleSlidingIntervalBound` | backend/app/modules/identity_security/endpoint_abuse.py:109-115 | The bound for the single-subject control |
| `EndpointAbuse.RefusalNamesAWait` | backend/app/modules/identity_security/endpoint_abuse.py:124-125 | A refusal names a positive wait |
| `EndpointAbuse.RefusalTellsTheWait` | backend/app/modules/identity_security/endpoint_abuse.py:118-126 | The same request is refused at every time before the wait a refusal tells is over, and let through from then on |
| `EndpointAbuse.CountsUp` | backend/app/modules/identity_security/endpoint_abuse.py:118-126 | The first request of a key opens a window, the next ones count up in it to the limit, and the first one after it opens another |
| `EndpointAbuse.DualRefusals` | backend/app/modules/identity_security/endpoint_abuse.py:56-82 | A request is let through if and only if neither side refuses it, and the subject's refusal is told first |
| `EndpointAbuse.SingleControl.Permit` | backend/app/modules/identity_security/endpoint_abuse.py:32-40 | One request against one dictionary, which only an allowed request changes |
| `EndpointAbuse.DualControl.Permit` | backend/app/modules/identity_security/endpoint_abuse.py:56-82 | One request against both dictionaries, changed together or not at all |
| `WorkspaceSafety.SoleAdminInRuns` | backend/migrations/versions/20260809_0001_identity_workspace_foundation.py:151-166 | From bootstrap on, exactly one membership is an Admin: the Active owner |
| `WorkspaceSafety.SoleAdminIsUnique` | backend/migrations/versions/20260809_0001_identity_workspace_foundation.py:151-157 | A state with a sole Admin satisfies the one-Active-Admin index |
| `WorkspaceSafety.RunsKeepOwnership` | backend/app/infrastructure/database/repositories/ownership_transfer.py:106-387 | Every run keeps the sole Admin, at most one open transfer opened by the current owner, and unchanged terminal transfers |
| `WorkspaceSafety.ConfirmWritesGoThrough` | backend/app/infrastructure/database/repositories/ownership_transfer.py:283-308 | After the first flush of a confirmation nobody is an Active Admin, after the second exactly the target is, and the owner reference holds again at commit; no write is refused |
| `WorkspaceSafety.ConfirmSucceedsExactly` | backend/app/infrastructure/database/repositories/ownership_transfer.py:186-281 | A confirmation succeeds if and only if all its checks pass |
| `WorkspaceSafety.PromotingFirstIsRejected` | backend/migrations/versions/20260809_0001_identity_workspace_foundation.py:151-157 | Promoting the target before demoting the owner would break the immediate index |
| `WorkspaceSafety.ConfirmHandsOver` | backend/app/infrastructure/database/repositories/ownership_transfer.py:295-308 | A confirmation makes the target the owner, gives the former owner the agreed role and ends both parties' sessions |
| `WorkspaceSafety.InitiateKeepsOwnership` | backend/app/infrastructure/database/repositories/ownership_transfer.py:106-184 | Initiating supersedes every open transfer and opens one from the current owner |
| `WorkspaceSafety.InitiateOpensOne` | backend/app/infrastructure/database/repositories/ownership_transfer.py:160-175 | After an initiation exactly one transfer is open: the new one, from the owner to the target, for thirty minutes |
| `WorkspaceSafety.CancelClosesExactly` | backend/app/infrastructure/database/repositories/ownership_transfer.py:346-381 | The owner cancels exactly an open transfer that is not due, at its current version |
| `WorkspaceSafety.SupersedingCloses` | backend/app/infrastructure/database/repositories/ownership_transfer.py:399-447 | Expiring the due and cancelling the rest leaves no transfer open and changes only open ones |
| `WorkspaceSafety.CancelKeepsOwnership` | backend/app/infrastructure/database/repositories/ownership_transfer.py:327-387 | Cancelling keeps the ownership invariant and every terminal transfer |
| `WorkspaceSafety.MutateLeavesOwnership` | backend/app/infrastructure/database/repositories/member_lifecycle.py:119-141 | Role and status changes never touch the owner and never make an Admin |
| `WorkspaceSafety.TransitionsAreExact` | backend/app/modules/member_lifecycle/service.py:167-202 | A mutation leads from one role and status to another exactly along the permitted edges; revoked is final and nobody becomes an Admin |
| `WorkspaceSafety.MutateStores` | backend/app/infrastructure/database/repositories/member_lifecycle.py:139-166 | A mutation changes one membership by one permitted edge, and ends its sessions unless it brings the member back |
| `WorkspaceSafety.ProvisionStores` | backend/app/infrastructure/database/repositories/member_activation.py:65-105 | A provisioned member is new and pending, in the asked role and under the asked address, with one fresh challenge for 24 hours |
| `WorkspaceSafety.ProvisionLeavesOwnership` | backend/app/infrastructure/database/repositories/member_activation.py:57-113 | Provisioning never makes an Admin |
| `WorkspaceSafety.ActivateLeavesOwnership` | backend/app/infrastructure/database/repositories/member_activation.py:231-242 | Activation never makes an Admin |
| `WorkspaceSafety.BootstrapIsValid` | backend/app/infrastructure/database/repositories/bootstrap.py:72-106 | The bootstrapped workspace satisfies the ownership invariant |
| `WorkspaceSafety.CompletedTransfersFormAPath` | backend/app/infrastructure/database/repositories/ownership_transfer.py:301-305 | Completed transfers, in the order a run completes them, lead from the first owner to the current one |
| `WorkspaceSafety.CompletionsAreExact` | backend/app/infrastructure/database/repositories/ownership_transfer.py:283-305 | A transfer is marked completed if and only if a confirmation of the run completed it |
| `WorkspaceSafety.CompletionsAreDistinct` | backend/app/infrastructure/database/repositories/ownership_transfer.py:215-228 | No transfer is completed twice |
| `WorkspaceSafety.OnlyTheOwnerActsAsAdmin` | backend/app/infrastructure/database/repositories/finance.py:1161-1181 | A finance request is accepted as coming from an active Admin if and only if it is the owner's and the owner's account is active |
| `WorkspaceSafety.RunsKeepEmails` | backend/migrations/versions/20260809_0001_identity_workspace_foundation.py:57-82 | In every run no two accounts share an address, and accounts keep theirs |
| `JointRuns.AdminPowersWereTheOwners` | backend/app/infrastructure/database/repositories/finance.py:1161-1181 | In every run of finance and workspace steps together, every approval, rejection, reversal, correction and archiving in the ledger names a member who was the owner at some moment of the run, and no decided event goes without |
| `JointRuns.EvidenceIsExact` | backend/app/infrastructure/database/repositories/finance.py:338-807 | In every joint run a row shows that a member used an Admin's power on it at a time and for a reason, if and only if a step of the run is that member's request, at that time and with that reason, that took effect and wrote it while the member owned the workspace |
| `JointRuns.EvidenceIsWrittenOnce` | backend/app/infrastructure/database/repositories/finance.py:570-591 | Each piece of this evidence is written by exactly one step and never written over |
| `JointRuns.AdminEffectsAreTheOwners` | backend/app/infrastructure/database/repositories/finance.py:1161-1181 | Whenever a finance request takes effect in an Admin's name, it is the current owner's and the owner is active |
| `JointRuns.RunsStayValid` | backend/app/infrastructure/database/repositories/finance.py:1161-1181 | Every joint run keeps the ledger, the records and the ownership invariant, with access following from the members |
| `ActivationSafety.RunsKeepChallenges` | backend/app/infrastructure/database/repositories/member_activation.py:148-168 | Every run keeps at most one issued challenge per membership, unique digests, and used or revoked challenges unchanged |
| `ActivationSafety.ActivationHappensOnce` | backend/app/infrastructure/database/repositories/member_activation.py:205-242 | In a run no challenge and no membership is activated a second time |
| `ActivationSafety.ActivationSucceedsExactly` | backend/app/infrastructure/database/repositories/member_activation.py:181-230 | Activation succeeds with a challenge if and only if its value is presented in time and for the first time, for a member who may be activated |
| `ActivationSafety.BootstrapHasNoChallenges` | backend/app/infrastructure/database/repositories/bootstrap.py:72-106 | The bootstrapped workspace satisfies the activation invariant |
| `ActivationSafety.SpentChallengesAreFinal` | backend/app/infrastructure/database/repositories/member_activation.py:221-242 | With times that do not go back, issued challenges belong to pending members and used, revoked or expired ones never change |
| `ActivationSafety.ExpiredChallengesRevive` | backend/app/infrastructure/database/repositories/member_activation.py:212-223 | Activation changes an expired challenge if and only if its value is presented before its expiry for a member who may still be activated |
| `ActivationSafety.IssuedStayPendingExactly` | backend/app/infrastructure/database/repositories/member_activation.py:205-242 | All through a run issued challenges belong to pending members, if and only if no step presents an expired challenge's value at an earlier time beside a newer challenge |
| `ActivationSafety.NextKeepsPending` | backend/app/infrastructure/database/repositories/member_activation.py:205-242 | The same for one step, with the condition readable from the state before it |
| `ActivationSafety.ActivationLeavesIssued` | backend/app/infrastructure/database/repositories/member_activation.py:221-242 | A successful activation leaves an issued challenge on the now active membership if and only if its own challenge was marked expired and the membership has another issued one |
| `ActivationSafety.ClockSetBack` | backend/app/infrastructure/database/repositories/member_activation.py:115-257 | A run from bootstrap, with a clock set back once, in which an expired challenge activates and an issued one is left on the active member |
| `ActivationSafety.UseIsCheckedBeforeExpiry` | backend/app/modules/identity_security/credentials.py:169-177 | A used or revoked challenge verifies as such past its expiry, which is what keeps its row within the table's CHECKs |
| `ActivationSafety.RestartKeepsChallenges` | backend/app/infrastructure/database/repositories/member_activation.py:115-176 | A restart revokes what is issued and issues one challenge |
| `ActivationSafety.MutateKeepsChallenges` | backend/app/infrastructure/database/repositories/member_lifecycle.py:152-166 | Revoking a membership revokes its issued challenges and spoils no other |
| `WorkspaceRepository.Repository.constructor` | backend/app/infrastructure/database/repositories/bootstrap.py:72-106 | The state an installation's bootstrap stores |
| `WorkspaceRepository.Repository.Provision` | backend/app/infrastructure/database/repositories/member_activation.py:57-113 | Account, membership and challenge rows, or the first refusal |
| `WorkspaceRepository.Repository.Restart` | backend/app/infrastructure/database/repositories/member_activation.py:115-176 | The revoked challenges, the new one and the new version, or the first refusal |
| `WorkspaceRepository.Repository.Activate` | backend/app/infrastructure/database/repositories/member_activation.py:178-257 | The activation, the expiry mark, or no change |
| `WorkspaceRepository.Repository.Mutate` | backend/app/infrastructure/database/repositories/member_lifecycle.py:87-169 | The new role and status with their revocations, or the first refusal |
| `WorkspaceRepository.Repository.RevokeIssued` | backend/app/infrastructure/database/repositories/member_lifecycle.py:152-166 | The bulk update of a membership's issued challenges |
| `WorkspaceRepository.Repository.RevokeActiveSessions` | backend/app/infrastructure/database/repositories/member_lifecycle.py:227-237 | The bulk update of an account's active sessions |
| `WorkspaceRepository.Repository.ExpireDueTransfers` | backend/app/infrastructure/database/repositories/ownership_transfer.py:399-422 | The bulk update of due transfers |
| `WorkspaceRepository.Repository.CancelOpenTransfers` | backend/app/infrastructure/database/repositories/ownership_transfer.py:424-447 | The bulk update of open transfers |
| `WorkspaceRepository.Repository.Initiate` | backend/app/infrastructure/database/repositories/ownership_transfer.py:106-184 | The new transfer after superseding the open ones, or the first refusal |
| `WorkspaceRepository.Repository.Confirm` | backend/app/infrastructure/database/repositories/ownership_transfer.py:186-325 | The completed handover, the expiry mark, or the first refusal |
| `WorkspaceRepository.Repository.HandOver` | backend/app/infrastructure/database/repositories/ownership_transfer.py:283-308 | The three flushes in order, undone together when one is refused |
| `WorkspaceRepository.Repository.Cancel` | backend/app/infrastructure/database/repositories/ownership_transfer.py:327-387 | The cancelled or expired transfer, or the first refusal |

## Left out

- Locking, isolation levels and asynchronous scheduling: each request is one atomic step.
- HTTP routing, request models, headers, error envelopes and configuration.
- Audit events, review comments, category commands and workspace settings: categories and the finance
  switch change by arbitrary steps instead. So does access in `CommandRuns`; in `JointRuns` it follows from
  the members.
- The services' checks that a caller passed the operation code and capability that belong to the call: the
  endpoints always do.
- Unicode normalisation and trimming of texts: texts are taken as they are after both; lengths and control
  characters are checked as in the source.
- Hash functions, message authentication and checksums: digests and fingerprints are numbers, the keyed
  digest and CRC-32 are parameters. What the cursor theorems assume of them is `Cursors.Trusted`.
- Text formats of dates, identifiers and JSON are printed in full; the library parsers that read them back
  are parameters. `Cursors.Trusted` assumes that they give back what is printed for the payloads the program
  signs, and nothing about other texts. `Cursors.ReadersCanBeTrusted` shows readers that meet it.
- The foreign keys from a row to its acting members, in `Ledger.ForeignKeys`: the ledger has no member table;
  every write is made for a member that the finance access check has just found.
- The name-based identifier of a replacement is a parameter of the request; that it is new is an explicit
  hypothesis of `LedgerSafety.GuardedWritesGoThrough`.
- Floating-point rounding of cursor expiries: whole seconds are computed exactly.
- Argon2 passwords: whether a password matches is a parameter of `Workspace.Initiate`.
- Session rotation, recovery and login controls, the rejecting production adapters, and the `consume` and
  `revoke` helpers on immutable credential records, which these repositories do not use.
- Workspace suspension: no code sets a workspace's status.
- Deliveries and notifications after a commit.
- PDF and JPEG checks and receipt storage.
- Frontend.

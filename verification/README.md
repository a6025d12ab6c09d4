# Financial Data Hub: a verified model of its core

This project models, in Dafny, the deterministic logic at the centre of Financial Data Hub and
proves properties of it. `dafny verify dfyconfig.toml` checks everything.

- **FX rates** (`FxRates`, `FxProvider`, `FxRepository`, `FxAveraging`, `Calendar`, `Decimals`):
  the five-day look-back, the period average over every calendar day, its two implementations,
  the stored table and its upsert, and the fiscal periods averages are taken over.
- **Translation** (`Normaliser`, `BulkSpec`, `BulkTranslation`): balance-sheet figures at the
  closing rate, flows at the period average, and the batch that fills a job's rows inside a
  savepoint.
- **Ledger** (`LedgerSpec`, `Ledger`): the writer's classification of a batch into inserts,
  restatements and skips, against a table with the point-in-time unique constraint, over runs of
  batches.
- **Rate limiter** (`RateLimitSpec`, `RateLimiter`): the atomic sliding-window script on a sorted
  set with an expiry, over runs with a clock that never goes back.
- **Rate sync** (`EcbSync`): batched fetch and merge, conversion to dollar rates, upsert.
- **Profile and consolidation** (`Profile`, `Consolidation`): the row that stands for each
  presentation category, and the rounding variance of a group.
- **Validation** (`ValidationRules`, `Validation`): the six rules, the score, and which parsed
  item stands for each field.
- **Export job** (`ExportProtocol`): the steps of the export pipeline as a protocol under
  failures, crashes, redelivery and duplicate delivery.
- `Arithmetic`, `Text` and `Wrappers` hold shared helpers.

Code that updates state is written as methods on classes or loops and proved equal to a function
of the old state; the properties are then lemmas about that function. The export pipeline is a
state machine over its committed steps, because its properties are about interleavings.

Decimals are exact reals; every `quantize` is written out with its rounding mode. Dates are day
ordinals (1 January of year 1 is day 1). The database, Redis, S3 and the ECB appear only as the
atomic effects the code relies on: a transaction that commits or not, a unique constraint, an
atomic script, an object store, a table of quotes.

## Where the code and its documentation differ

The model follows the code.

- `services/currency/bulk_processor.py:55` and `services/currency/bulk_processor.py:690-698` promise
  half-even rounding for `value_usd`; `services/extraction/normaliser/currency.py:255` has by then
  rounded half away from zero, so the half-even rounding changes nothing. A row holds the promised
  amount exactly when it is in dollars or its exact amount is not a tie that half-even takes down:
  `BulkSpec.RowIsHalfEvenIff`. 0.20 at 8 to the dollar is such a tie: `BulkSpec.HalfEvenIsNotKept`.
- `apps/api/repositories/fx_rates.py:395-397` says the provider also skips a day without a rate.
  The provider raises (`services/currency/translator.py:374-380`).
  `FxAveraging.ProviderRefinedByRepository` says exactly when the two differ and
  `FxAveraging.SkippedDaysAreReal` gives an input.
- `apps/api/models/__init__.py:2716-2720` describes a stored rate as dollars per foreign unit; all
  code divides by it as foreign units per dollar.
- The gap message asks the operator to re-trigger the job (`services/currency/bulk_processor.py:572-573`),
  but `failed_fx_data_gap` is not a translatable status (`services/currency/bulk_processor.py:93-95`):
  `BulkSpec.GapIsNotRetried`.
- The restatement rules promise one current row a key. A single batch that files a key twice with
  different dates leaves two: `LedgerSpec.TwoDatesInOneBatchBreak`.
  `LedgerSpec.CommitKeepsConsistentIff` is the exact condition on a batch and
  `LedgerSpec.RunStaysConsistentIff` on a run.
- `services/currency/aggregation_view.py:22-24` defines the variance as subsidiaries minus parent;
  the code takes parent minus subsidiaries.
- `services/validation/engine.py:7` subtracts the cost of goods; the rule adds it, the figure
  being negative already.
- The export pipeline documents two retries; it gives up on the second attempt
  (`workers/tasks/export_tasks.py:402`). Its guard against an already successful record is a
  separate read, so a success can be undone by a delivery that passed the guard before
  (`ExportProtocol.DuplicateDeliveriesCanUndoSuccess`) or, even with one delivery at a time, by
  failed reads of the successful record (`ExportProtocol.FailedReadUndoesSuccess`). As long as no
  read on a last attempt fails, SUCCESS is final exactly when no delivery under way has passed the
  guard and can still flip the row or give up (`ExportProtocol.SuccessIsFinalIff`), which holds
  whenever deliveries came one at a time (`ExportProtocol.SuccessIsFinal`).
- `Retry-After` is documented as the seconds until the client may retry. It is rounded down, so
  a client that waits for it is admitted exactly when at most a second or a whole number of
  seconds is left: `RateLimiter.RetryIsAdmittedIff`; `RateLimiter.RetryAfterIsTooShort` is a run
  in which it is not.
- `services/ingestion/writer.py:93-104` keeps ten places for per-share fields, while the column
  they go to holds two (`apps/api/models/__init__.py:2592-2593`), which PostgreSQL fills by rounding
  ties away from zero. The column keeps the bound value exactly when it has two places:
  `LedgerSpec.ColumnKeepsIff`; `LedgerSpec.PerShareLosesPlaces` is one that it does not.

## Model

| member | source | states |
|---|---|---|
| Decimals.RoundHalfEven | services/currency/translator.py:391 | the nearest integer, ties to even |
| Decimals.RoundHalfUp | services/extraction/normaliser/currency.py:255 | the nearest integer, ties away from zero |
| Decimals.HalfEvenIsDetermined | services/currency/translator.py:391 | nearest-with-ties-to-even has exactly one solution |
| Decimals.HalfUpIsDetermined | services/extraction/normaliser/currency.py:255 | nearest-with-ties-away has exactly one solution |
| Decimals.RoundingIsOdd | services/currency/translator.py:434-436 | both roundings commute with a change of sign |
| Decimals.QuantiseRateFacts | services/currency/translator.py:391 | ten places, error at most half a unit, ten-place values unchanged |
| Decimals.QuantiseMoneyFacts | services/currency/bulk_processor.py:690-698 | two places, error at most half a cent, two-place values unchanged |
| Decimals.MoneyRoundingsAgreeIff | services/currency/bulk_processor.py:690-698 | half-up and half-even money differ exactly on ties whose lower neighbour is even |
| Decimals.QuantisedRateIs | services/currency/translator.py:391 | a quantised rate is k tenth-place units exactly for the nearest k, even on a tie |
| Decimals.QuantisedMoneyIs | services/currency/bulk_processor.py:690-698 | likewise for cents |
| Decimals.QuantisedMoneyHalfUpIs | services/extraction/normaliser/currency.py:255 | likewise for cents, ties away from zero |
| Text.UpperIdempotent | apps/api/repositories/fx_rates.py:219 | layers that each upper-case a code look up the same code |
| Text.UpperMeans | apps/api/repositories/fx_rates.py:219 | no lower-case letter is left and other characters stay |
| Text.StripMeans | services/currency/bulk_processor.py:648-651 | stripping cuts off the white space at both ends, all of it and nothing else |
| Calendar.OrdinalOfNextDay | services/currency/bulk_processor.py:655-659 | ordinals count days across month ends, leap days and year ends |
| Calendar.QuartersPartitionYear | services/currency/bulk_processor.py:648-682 | for every year and both calendars the four quarters partition the fiscal year, 365 or 366 days; years outside the date range fail for every label |
| Calendar.YearsFollow | services/currency/bulk_processor.py:648-682 | consecutive derived fiscal years meet without gap or overlap |
| Calendar.OrdinalIs | services/currency/bulk_processor.py:655-659 | one closed formula for the ordinal of every date |
| Calendar.PeriodHolds | services/currency/bulk_processor.py:648-682 | a date lies in a derived period exactly when its month is one of the label's: months 3k - 2 to 3k on the calendar, from April on IND_AS |
| Calendar.DerivedIff | services/currency/bulk_processor.py:648-682 | exactly which years and labels give a period, and which failure the others give |
| FxRates.RatesInRange | apps/api/repositories/fx_rates.py:193-266 | exactly the quoted days of the range, ascending; USD is quoted at 1 every day |
| FxRates.InForceDate | services/currency/translator.py:514-541 | the latest rate date in the look-back window, or none when the window is empty |
| FxRates.WindowAveragesAlike | services/currency/translator.py:363-383 | averaging the fetched window equals averaging the whole store |
| FxProvider.LastRowWins | services/currency/translator.py:503-511 | the rate map holds exactly the listed dates, the last row of a date winning |
| FxProvider.FetchRateMap | services/currency/translator.py:363-366 | one range query gives the window of the stored rates |
| FxProvider.ResolveWithLookback | services/currency/translator.py:514-541 | the scan finds the rate in force, if any |
| FxProvider.GetSpotRate | services/currency/translator.py:257-305 | the rounded rate in force on the day over the whole store, or the missing-rate or non-positive failure |
| FxProvider.GetWeightedAverageRate | services/currency/translator.py:345-391 | the average of the whole store that the FxAveraging results are about; USD and reversed periods first |
| FxProvider.AverageDays | services/currency/translator.py:369-391 | the day-by-day loop: all days resolve and are averaged, or the first unusable day is reported |
| FxRepository.FXRateRepository.GetSpotRate | apps/api/repositories/fx_rates.py:272-319 | the last row of the ascending list is the rate in force |
| FxRepository.FXRateRepository.GetWeightedAverageRate | apps/api/repositories/fx_rates.py:325-420 | the rounded mean over the covered days, or no rate when none is |
| FxRepository.AverageCoveredDays | apps/api/repositories/fx_rates.py:381-409 | the loop that skips uncovered days |
| FxRepository.LookBack | apps/api/repositories/fx_rates.py:386-391 | the inner look-back loop finds a rate exactly on covered days |
| FxRepository.FXRateRepository.BulkUpsert | apps/api/repositories/fx_rates.py:426-506 | distinct keys are all upserted; a repeated key fails and changes nothing |
| FxRepository.UpsertMeans | apps/api/repositories/fx_rates.py:433-434 | each upserted key holds its new rate and every other key its old one |
| FxRepository.UpsertIsIdempotent | apps/api/repositories/fx_rates.py:436-441 | upserting the same rows again changes no rate |
| FxAveraging.DaySumIsWeightedSum | services/currency/translator.py:333-338 | the day-by-day sum is the sum over trading days of rate times days in force, and those days add up to the period |
| FxAveraging.WeightIsGap | services/currency/translator.py:333-338 | every rate date, before the period or the last one too, weighs exactly the days of the period until the next rate or the end of its look-back |
| FxAveraging.CoveredIffNoWideGap | services/currency/translator.py:371-380 | every day is covered exactly when no gap between rate dates is wider than six days, ends included |
| FxAveraging.AverageExistsIff | services/currency/translator.py:345-391 | the average exists exactly when the period is well formed, no gap is too wide and every rate in force is positive |
| FxAveraging.GapIsFirstUncoveredDay | services/currency/translator.py:374-380 | a missing-rate failure names the first uncovered day, all earlier days having positive rates |
| FxAveraging.AverageWithinResolvedRates | services/currency/translator.py:385-391 | with ten-place rates the rounded average lies between the smallest and largest resolved rate, and is positive |
| FxAveraging.AverageIsNearest | services/currency/translator.py:385-391 | a returned average is k tenth-place units exactly for the k nearest to the mean over all days, even on a tie |
| FxAveraging.AverageFailsAt | services/currency/translator.py:371-383 | which failure comes out and on which day |
| FxAveraging.RepositoryAverageIsNearest | apps/api/repositories/fx_rates.py:376-420 | likewise over the covered days, or no rate when none is covered |
| FxAveraging.SpotIsNearest | services/currency/translator.py:283-305 | both spots are the nearest tenth-place value, even on a tie, of the latest rate of the six days; the provider alone refuses one that is not positive |
| FxAveraging.SpotWithoutRate | services/currency/translator.py:274-296 | both fail without a rate in the six days, and the dollar is at one |
| FxAveraging.YearExistsIffQuartersDo | services/currency/bulk_processor.py:648-682 | a year's average exists exactly when its four quarters' averages do |
| FxAveraging.YearIsWeightedMeanOfQuarters | services/currency/translator.py:385-388 | the exact year mean is the day-weighted mean of the quarters' exact means |
| FxAveraging.YearAverageNearQuarterAverages | services/currency/translator.py:385-391 | after rounding the two differ by at most 1e-10 |
| FxAveraging.DerivedYearMatchesQuarters | services/currency/bulk_processor.py:648-682 | both results for the derived periods of every year on both calendars |
| FxAveraging.AverageDependsOnWindow | services/currency/translator.py:363-383 | tables equal on [start - 5, end] give the same average or the same failure, in both implementations |
| FxAveraging.SpotDependsOnWindow | services/currency/translator.py:283-294 | tables equal on [day - 5, day] give the same spot or the same failure, in both implementations |
| FxAveraging.ProviderRefinedByRepository | apps/api/repositories/fx_rates.py:376-420 | where the provider succeeds the repository agrees; exactly when only the repository succeeds |
| FxAveraging.SpotImplementationsAgree | apps/api/repositories/fx_rates.py:299-319 | the two spot lookups agree except on a non-positive rate, which only the provider refuses |
| FxAveraging.SkippedDaysAreReal | apps/api/repositories/fx_rates.py:393-397 | an input on which the provider fails and the repository returns an average |
| Normaliser.TranslationIsFaithful | services/extraction/normaliser/currency.py:212-263 | with ten-place rates the zero guard never fires, the stored rate is the one divided by, and the dollars convert back to within half a cent's worth |
| Normaliser.DualPassDependsOnItsWindow | services/extraction/normaliser/currency.py:214-234 | balance-sheet amounts depend only on the six days up to the close; flows only on the period and five days before |
| Normaliser.RefusedCalls | services/extraction/normaliser/currency.py:203-248 | exactly which calls fail before a rate lookup, the dollar identity, and which rate each statement uses |
| Normaliser.TranslationKeepsSign | services/currency/translator.py:434-436 | translating a negated value gives the negated amount at the same rate, or the same failure |
| Normaliser.HalfEvenKeptIff | services/extraction/normaliser/currency.py:255 | the translated amount is the exact one rounded half-up, and the promised half-even one exactly when that is no tie taken down |
| BulkSpec.RowGetsItsTranslation | services/currency/bulk_processor.py:419-450 | a translated row carries the dual-pass amount and rate; the second rounding changes nothing |
| BulkSpec.ForeignRowMeans | services/currency/bulk_processor.py:419-450 | a foreign row takes the overriding or else the derived period, the closing rate for balance-sheet figures and the average for flows, and the nearest cents, away from zero on a tie |
| BulkSpec.NoCurrencyIsDollars | services/currency/bulk_processor.py:411-427 | a row without a currency is a dollar row, at the nearest cents, even on a tie, and rate one |
| BulkSpec.RowIsHalfEvenIff | services/currency/bulk_processor.py:448 | a row holds the promised half-even amount exactly when it is in dollars or its exact amount is no tie taken down |
| BulkSpec.HalfEvenIsNotKept | services/currency/bulk_processor.py:55 | a row that does not hold the promised amount |
| BulkSpec.EveryRowTranslated | services/currency/bulk_processor.py:344-352 | a batch that runs through has translated each row on its own |
| BulkSpec.FirstFailure | services/currency/bulk_processor.py:344-362 | the batch stops exactly at the first row that raises, with the counts of the rows before it |
| BulkSpec.BatchFailsIffSomeRowFails | services/currency/bulk_processor.py:341-362 | a batch fails exactly when one of its rows does on its own |
| BulkSpec.RunKeepsAll | services/currency/bulk_processor.py:335-390 | if all loaded rows translate, each is replaced by its translation, nothing else changes, and the counts add up |
| BulkSpec.RunKeepsNothing | services/currency/bulk_processor.py:357-381 | if one raises, no row changes; a missing rate marks the job and reports translated so far plus one |
| BulkSpec.SecondRunChangesNothing | services/currency/bulk_processor.py:467-502 | after a successful run a second one, at any rates, only skips the rows without a value |
| BulkSpec.EngineRunKeepsAll | services/currency/bulk_processor.py:335-450 | all of all-or-nothing for the translation engine: every loaded row with a value ends with its dual-pass amount and rate, every other row as it was |
| BulkSpec.EngineSecondRunChangesNothing | services/currency/bulk_processor.py:467-502 | after such a run a second one, with any other rates and periods, changes nothing |
| BulkSpec.GapIsNotRetried | services/currency/bulk_processor.py:244-251 | a job marked for a gap is not picked up again |
| BulkSpec.OnlyTheseStatuses | services/currency/bulk_processor.py:93-95 | a job in any other than four statuses is a no-op |
| BulkSpec.LoadedIff | services/currency/bulk_processor.py:487-502 | exactly which rows a job works on |
| BulkSpec.ReportMeans | services/currency/bulk_processor.py:335-390 | the counts of a report, by currency and presence of a value, of all loaded rows or of those before the first failure |
| BulkTranslation.BulkCurrencyTranslator.TranslateItem | services/currency/bulk_processor.py:392-463 | updates the row in place as specified, or leaves it on an error |
| BulkTranslation.BulkCurrencyTranslator.TranslateItems | services/currency/bulk_processor.py:344-352 | the savepoint body does what the specification of a batch says |
| BulkTranslation.BulkCurrencyTranslator.TranslateBatch | services/currency/bulk_processor.py:310-390 | rows, report and job status after a batch, with rollback on any error |
| BulkTranslation.BulkCurrencyTranslator.Load | services/currency/bulk_processor.py:487-502 | exactly the current, untranslated rows of the job's company and year |
| BulkTranslation.BulkCurrencyTranslator.TranslateForJob | services/currency/bulk_processor.py:215-266 | the whole run on the objects equals the specified run on their values |
| LedgerSpec.BoundValueIsNear | services/ingestion/writer.py:176-185 | the bound value is within half a unit of its field's precision tier |
| LedgerSpec.ColumnKeepsIff | apps/api/models/__init__.py:2592-2593 | the two-place column keeps a bound value exactly when it has two places |
| LedgerSpec.StoredValueIsNear | apps/api/models/__init__.py:2592-2593 | the stored value has two places; per-share values are rounded twice, within half a cent and half a ten-place unit; any other is stored as bound |
| LedgerSpec.PerShareLosesPlaces | services/ingestion/writer.py:93-104 | a per-share value whose bound places the column drops |
| LedgerSpec.Existing | services/ingestion/writer.py:413-465 | the current row of a key, or none when every row of it is restated |
| LedgerSpec.Accepted | services/ingestion/writer.py:324-348 | exactly the items whose key has no current row or an older one |
| LedgerSpec.Superseded | services/ingestion/writer.py:331-333 | exactly the current rows that an accepted item is newer than |
| LedgerSpec.AfterExtends | services/ingestion/writer.py:360-378 | the table after a batch: rows of accepted keys restated, accepted items appended, each newer than every row of its key |
| LedgerSpec.AfterAppends | services/ingestion/writer.py:467-505 | for any table and batch: raised flags on superseded rows, and for each accepted item a current row with its key, date and value, rounded half-even and, for per-share fields, by the column once more |
| LedgerSpec.CommitsIff | apps/api/models/__init__.py:2660-2667 | a batch meets the constraint exactly when no two accepted items share key and filing date |
| LedgerSpec.KeepsConsistentIff | services/ingestion/writer.py:310-383 | the table a batch builds, before the constraint decides, is consistent exactly when no two accepted items share a key |
| LedgerSpec.CommitKeepsConsistentIff | services/ingestion/writer.py:310-383 | the table a batch leaves behind has one current, strictly newest row a key exactly when no two accepted items share a key, or two share key and date and the batch aborts |
| LedgerSpec.RunStaysConsistentIff | services/ingestion/writer.py:310-383 | a run of any batches keeps the ledger consistent throughout exactly when each batch meets that condition at its turn |
| LedgerSpec.DistinctBatchCommits | services/ingestion/writer.py:310-383 | a batch with distinct keys never violates the constraint and keeps the ledger consistent |
| LedgerSpec.OneDateBatchKeeps | services/ingestion/writer.py:310-383 | a batch filed on one date keeps the ledger consistent, by aborting if need be |
| LedgerSpec.EveryRunIsConsistent | services/ingestion/writer.py:310-383 | every table reachable by such batches has none or exactly one current, strictly newest row a key |
| LedgerSpec.TwoDatesInOneBatchBreak | services/ingestion/writer.py:317-348 | a batch that commits and leaves two current rows |
| LedgerSpec.HistoryIsKept | services/ingestion/writer.py:242-244 | over any stretch of any run no row is deleted or rewritten, and flags are only raised |
| LedgerSpec.CurrentRowsGrow | services/ingestion/writer.py:317-383 | current rows grow by inserted minus restated |
| LedgerSpec.FinalDateIsLatest | services/ingestion/writer.py:11-25 | after any run of distinct or one-date batches each key is at the latest filing date submitted in a batch that committed |
| LedgerSpec.DistinctBatchesAllCommit | services/ingestion/writer.py:11-25 | batches with distinct keys all commit, so that is the latest date ever submitted |
| LedgerSpec.OrderDoesNotMatter | services/ingestion/writer.py:11-25 | runs submitting the same items in any order agree on every current date |
| LedgerSpec.ReplayIsIdempotent | services/ingestion/writer.py:22-23 | replaying a batch whose accepted items had distinct keys inserts and restates nothing |
| Ledger.FinancialLineItemTable.FetchExistingNonRestated | services/ingestion/writer.py:413-465 | the lookup finds the current row of every incoming key |
| Ledger.FinancialLineItemTable.Classify | services/ingestion/writer.py:310-358 | what to insert, what to restate, and the three counts |
| Ledger.FinancialLineItemTable.Restate | services/ingestion/writer.py:361-366 | raises the flag of exactly the listed rows |
| Ledger.FinancialLineItemTable.InsertAll | services/ingestion/writer.py:374-378 | appends the rows, or stops exactly when the constraint would break |
| Ledger.FinancialLineItemTable.Write | services/ingestion/writer.py:255-409 | on success the old rows with raised flags and one row for each accepted item, carrying its key, date and rounded value, with the counts; the old table when the constraint breaks; inserted plus skipped is the batch size |
| RateLimitSpec.DecidedByLog | apps/api/middleware/rate_limit.py:144-160 | a request is admitted exactly when fewer than the limit were admitted within the window before it |
| RateLimitSpec.RequestMeans | apps/api/middleware/rate_limit.py:144-166 | every reply and the log after it, in terms of the log before: how many more fit, or a rejection, and when the first request leaves the window |
| RateLimitSpec.ResetMeans | apps/api/middleware/rate_limit.py:150-155 | the reset time of every reply, admitted or not: the first instant at which a request in the window has left it, or a window from now |
| RateLimitSpec.KeyLives | apps/api/middleware/rate_limit.py:164 | an admitted request keeps its key until a second after it leaves the window |
| RateLimitSpec.StillShows | apps/api/middleware/rate_limit.py:144-166 | after any step the pruned, expiring set shows exactly the logged requests still in the window, at every later time |
| RateLimitSpec.RequestKeepsValid | apps/api/middleware/rate_limit.py:137-167 | every step keeps that and the window bound |
| RateLimitSpec.RunIsValid | apps/api/middleware/rate_limit.py:137-167 | so does every run with a clock that never goes back |
| RateLimitSpec.NoWindowOverflows | apps/api/middleware/rate_limit.py:45-48 | no half-open interval one window long holds more than the limit |
| RateLimitSpec.ResetIsExact | apps/api/middleware/rate_limit.py:150-155 | after a rejection a later request finds room exactly from the returned reset time on |
| RateLimitSpec.RejectedUntilReset | apps/api/middleware/rate_limit.py:150-160 | every request before the reset is rejected, however many, and the first at or after it is admitted |
| RateLimitSpec.RemainingIsExact | apps/api/middleware/rate_limit.py:166 | of the requests at the same instant after an admission exactly the reported remaining ones are admitted |
| RateLimiter.SlidingWindowLimiter.Check | apps/api/middleware/rate_limit.py:317-343 | one script run on one key: its reply and log in terms of the log before, without effect on other keys |
| RateLimiter.SlidingWindowLimiter.RunScript | apps/api/middleware/rate_limit.py:137-167 | the script's prune, count, reject or add, and expiry |
| RateLimiter.SlidingWindowLimiter.Add | apps/api/middleware/rate_limit.py:163 | the sorted-set insertion |
| RateLimiter.RetryAfterReachesResetIff | apps/api/middleware/rate_limit.py:223-225 | exactly when waiting the advertised seconds reaches the reset |
| RateLimiter.RetryIsAdmittedIff | apps/api/middleware/rate_limit.py:205-225 | a rejected client that waits the advertised seconds is admitted exactly when at most a second or a whole number of seconds was left |
| RateLimiter.RetryAfterIsTooShort | apps/api/middleware/rate_limit.py:223-225 | a run in which it is rejected again |
| EcbSync.MergeBatch | workers/tasks/fx_tasks.py:427-431 | merging a batch updates each of its dates and keeps the others |
| EcbSync.FetchAll | workers/tasks/fx_tasks.py:410-431 | for every batch size and currency order the merged data is that of one request for the set of currencies |
| EcbSync.ConvertIsCrossRate | workers/tasks/fx_tasks.py:350-375 | a converted rate is the cross rate through the euro to within half a unit; when there is none |
| EcbSync.ConvertIsNearest | workers/tasks/fx_tasks.py:361-375 | a converted rate is k tenth-place units exactly for the positive k nearest to the cross rate, even on a tie |
| EcbSync.EmittedIff | workers/tasks/fx_tasks.py:348 | the emitted currencies are the requested ones in upper case, but the dollar |
| EcbSync.ConvertEcbToUsdConvention | workers/tasks/fx_tasks.py:320-379 | the nested loop emits the specified rows in order, skipping dates without a dollar anchor |
| EcbSync.ConvertQuotes | workers/tasks/fx_tasks.py:361-377 | the inner loop emits one row for each emitted currency that converts |
| EcbSync.RowsAre | workers/tasks/fx_tasks.py:346-379 | a row comes out exactly for a parseable date, a requested currency and its converted rate |
| EcbSync.RowsDistinctIff | workers/tasks/fx_tasks.py:346-379 | the rows repeat a date and currency exactly when an emitted code repeats and converts, or converts under two keys for one date |
| EcbSync.RowsDistinct | workers/tasks/fx_tasks.py:346-379 | distinct currencies give at most one row a date and currency |
| EcbSync.RunFxSync | workers/tasks/fx_tasks.py:387-485 | on success every currency and day is synced as SyncMeans says; the upsert fails exactly when rows repeat, so not for distinct currencies; a table of positive ten-place rates stays one |
| EcbSync.SyncMeans | workers/tasks/fx_tasks.py:410-485 | after a successful sync a currency and day hold the nearest tenth-place cross rate of the quotes published for that day, if there are any, else what they held before |
| EcbSync.SoundTableNeverMisleads | services/currency/translator.py:544-565 | on a table built by syncs the provider never meets a non-positive rate |
| Profile.BuildProfile | services/currency/aggregation_view.py:778-839 | the one-pass loop over dictionaries equals the fold that the lemmas are about |
| Profile.StandingRepresents | services/currency/aggregation_view.py:793-837 | on fetched rows the row left standing is the latest of its field, of best priority, then later date, then name |
| Profile.RepresentativeIsUnique | services/currency/aggregation_view.py:752-756 | a category has one such row |
| Profile.UnlistedField | services/currency/aggregation_view.py:824 | a field in neither table is its own category and yields to any priority below 999 |
| Profile.ProfileOfFetched | services/currency/aggregation_view.py:738-842 | the profile holds each category present, with the field, standard, date and nearest cents of its representative, and the number of rows without dollars |
| Consolidation.ComputeConsolidationDelta | services/currency/aggregation_view.py:613-698 | the totals, the rounded variance, the flag and the breakdown |
| Consolidation.DetailNames | services/currency/aggregation_view.py:656-666 | the breakdown names exactly the subsidiaries |
| Consolidation.DetailGives | services/currency/aggregation_view.py:656-666 | each with its own figure, zero if it has none, the last one of a repeated company |
| Consolidation.VarianceIsRoundingOnly | services/currency/aggregation_view.py:656-671 | a parent equal to its n subsidiaries at one rate varies by at most half a cent times n + 1, unrounded, and is not flagged within the threshold |
| ValidationRules.ToleranceMeans | services/validation/engine.py:226-240 | the tolerance is a thousand or half a percent of the larger figure, in either order |
| ValidationRules.RunMeans | services/validation/engine.py:248-512 | on any bag one critical for each broken identity and interlock, one warning for a broken retained-earnings bridge, each with the two figures that disagree and their distance |
| ValidationRules.StatementRulesSay | services/validation/engine.py:248-357 | the whole finding of each statement rule: a skip, or rule, figures and distance |
| ValidationRules.InterlocksSay | services/validation/engine.py:360-463 | likewise for the interlocks |
| ValidationRules.Run | services/validation/engine.py:498-512 | the findings of all rules in order |
| ValidationRules.ComputeConfidence | services/validation/engine.py:622-661 | the clamped score, and a deduction log that accounts for every point |
| Validation.AggregateLineItemsToBag | services/validation/engine.py:694-777 | the loop equals the fold that the lemmas are about |
| Validation.BestIsSelected | services/validation/engine.py:700-705 | each field keeps its annual, latest-filed, first item |
| Validation.SelectedIff | services/validation/engine.py:735-758 | selected is annual if any is, then latest filed, then first |
| Validation.BagIsBagged | services/validation/engine.py:760-777 | each figure of the bag is that of the item selected for its field; the opener is the net income and the opening figures are missing |
| Validation.FigureIsUnique | services/validation/engine.py:735-758 | a field has one such figure, so the items determine the bag |
| Validation.OrderDoesNotMatter | services/validation/engine.py:735-758 | without ties any reordering keeps the same items, hence bag, findings and score |
| Validation.PipelineFindings | services/validation/engine.py:707-724 | aggregation makes XST-001 unable to fail and XST-002 and XST-003 always skipped; criticals are the broken identities |
| Validation.ValidateParsedItems | services/validation/engine.py:530-568 | the score is 100 minus 25 for each broken identity, at least 25, and exportable exactly when it is 100 |
| ExportProtocol.SuccessIsAlwaysBacked | workers/tasks/export_tasks.py:203-263 | under any interleaving of deliveries, failures, crashes before or after the last commit, and redeliveries, SUCCESS has its key, link and object |
| ExportProtocol.SuccessIsFinalIff | workers/tasks/export_tasks.py:156-161 | from a successful row no run without a failed last read leaves SUCCESS exactly when no delivery past the guard can still flip the row or give up |
| ExportProtocol.AnySuccessCanBeLost | workers/tasks/export_tasks.py:385-405 | with failed last reads any successful row can be lost |
| ExportProtocol.DuplicateDeliveriesCanUndoSuccess | workers/tasks/export_tasks.py:143-161 | a run of two deliveries that leaves SUCCESS |
| ExportProtocol.RunThrough | workers/tasks/export_tasks.py:155-263 | a delivery that meets no failure ends in SUCCESS with key, link and object |
| ExportProtocol.SuccessIsFinal | workers/tasks/export_tasks.py:143-161 | a job that reached SUCCESS with one delivery at a time keeps it, then even under duplicate deliveries, as long as no last read fails |
| ExportProtocol.FailedReadUndoesSuccess | workers/tasks/export_tasks.py:385-405 | a run from a job just created, one delivery at a time, that succeeds, crashes before the acknowledgement and ends FAILED |
| ExportProtocol.ChainSettles | workers/tasks/export_tasks.py:366-407 | a crash-free chain whose failure write succeeds can go on until all is acknowledged and the row shows SUCCESS or FAILED, within two attempts |
| ExportProtocol.ProgressIsShown | workers/tasks/export_tasks.py:166-172 | while a chain's delivery produces the export, the record shows GENERATING |
| ExportProtocol.TransientIsRetriedOnce | workers/tasks/export_tasks.py:385-407 | an error that may be transient is retried on the first attempt and given up on the second |
| ExportProtocol.DataErrorIsNotRetried | workers/tasks/export_tasks.py:378-383 | a data error or a missing record fails at once, on any attempt |
| ExportProtocol.FailedOnlyAfterRetry | workers/tasks/export_tasks.py:402-407 | under any interleaving without data errors FAILED needs a second attempt |
| ExportProtocol.RedeliveryKeepsAttempt | workers/tasks/export_tasks.py:317-324 | a crash costs no attempt |
| ExportProtocol.FreshDeliveryIsChain | workers/tasks/export_tasks.py:317-324 | a fresh delivery is such a chain, of at most 17 steps |

## Left out

- Decimal context precision (28 digits) and overflow of NUMERIC columns: arithmetic is exact and only the explicit roundings are modelled.
- Dates near the ends of Python's range: subtracting the look-back is taken as always possible; only the derived periods check the range.
- Unicode case and white space beyond ASCII in currency codes, period labels and standards.
- Import wiring: `apps/api/repositories/fx_rates.py:83` and `workers/tasks/fx_tasks.py:396` import names their modules do not define; the model takes the evident definitions.
- The ORDER BY of the untranslated-rows query: the rows are taken in the order the query returns, whatever it is; every result holds for any order.
- The `updated_at` and `created_at` stamps, log lines and message texts.
- `translate_for_company_period`: the same batch without the status gate.
- `_persist_validation_result` and `_maybe_update_job_status` of the writer: one insert and one guarded assignment, easy beside the ledger.
- `FinancialLineItemRepository.bulk_upsert`: it can create several current rows a key, so the ledger results are for tables that only the writer fills.
- Two writers at once on one company and year: the ingestion lock is taken to serialise them.
- The majority vote for a profile's reporting standard, the display order of categories and the comparative view: easy loops.
- The contents of the category, priority and presentation tables: they are parameters.
- Clock skew between API processes and Redis: requests carry one clock that does not go back. Skip lists, client address extraction and the fail-open path of the middleware.
- Parsing of the ECB payload and of date strings: the quotes and the parser are parameters, and a fetch is taken to answer each currency on its own.
- The retry schedule, the session factory and the presigned-URL host rewrite of the export pipeline; deletion of an export record while it runs.
- AI extraction, XBRL parsing, Excel sheets, HTTP routers, authentication and CRUD repositories.
- A commit of the export pipeline is taken to either apply or fail: a commit that applied although its connection failed is not modelled.

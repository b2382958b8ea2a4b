# Invoicing back end: a verified model of its calculation and state-keeping kernel

The repository is an invoicing product: quotes, invoices, customers, an AI assistant, analytics and Google sign-in
over a relational database. This project models the parts of its back end that compute or keep state by rules of
their own, and proves what those rules promise: forecasts, tax grouping and its data migration, the rate limiter,
the assistant's event stream, calendar windows, request metrics, Google sign-in, customer identity keys, document
numbers and the start-up backfills.

Each module follows one component. Loops and objects of the program are methods and classes here, proved against
specification functions; what the program promises is then proved about those functions, for every input and every
run. Money is in whole cents, tax rates in ten-thousandths, time in seconds or in calendar days and microseconds. A
clock reading, a random roll, a fresh code, a token's claims, the outcome of a check made elsewhere and the order in
which the database returns rows are parameters. Strings are ASCII.

`dafny verify dfyconfig.toml` checks everything. Methods are proved against specification functions, and what such a
function means is stated once more by lemmas of its module, in terms of the program's own data and without the function.
Every lemma switches automatic induction off, so each inductive proof is the one written in its body.

| file | models |
|---|---|
| `Forecast.dfy`, `LeastSquares.dfy`, `Rounding.dfy`, `RealArithmetic.dfy` | `app/analytics/forecast.py`, the rounding of `app/analytics/primitives.py` |
| `TaxGroups.dfy`, `InvoiceTotals.dfy`, `TaxBackfill.dfy` | `app/tax_groups.py`, the totals of `app/services/invoices.py`, the per-line tax migration in `app/schema_migrations.py` |
| `RateLimit.dfy`, `RateLimitRuns.dfy`, `RateLimitChecks.dfy` | `app/rate_limit.py` |
| `AssistantStream.dfy`, `AssistantEngine.dfy` | `app/ai/anthropic_provider.py`, `app/ai/engine.py` |
| `Calendar.dfy`, `TimeWindows.dfy` | `app/analytics/time_windows.py` |
| `RequestMetrics.dfy` | `app/request_metrics.py` |
| `GoogleOAuth.dfy`, `GoogleOAuthRuns.dfy` | `app/google_oauth.py` and the sign-in routes of `app/routers/auth.py` |
| `UruguayRut.dfy`, `CustomerKeys.dfy`, `CustomerDuplicates.dfy`, `CustomerImports.dfy` | `app/uruguay_rut.py`, `app/customer_validation.py`, `app/customer_duplicates.py`, the guarded writes of `app/services/customers.py`, the import of `app/imports/customers.py` and `app/imports/base.py` |
| `DocumentNumbers.dfy`, `ReminderDays.dfy` | the `app/*_numbering.py` files, `app/reminder_settings.py` |
| `Backfills.dfy`, `InvoiceCounters.dfy` | the backfill loops of `app/schema_migrations.py`, the counter in `app/services/invoices.py` |
| `Text.dfy`, `Wrappers.dfy` | the string operations and result types the others share |

## Where the code and its own description part ways

The model follows the code. Each of these is settled by the lemmas it names.

- The tax migration's docstring says the original rate always comes back. It does for every rate exactly when the
  subtotal is at least 100.00 (`TaxBackfill.EveryRateComesBack`, `SmallInvoiceLosesTheRate`). The stored tax comes back
  for every four-decimal rate and every non-negative subtotal (`HistoricalTaxRecomputes`). Document rates were never
  limited to four decimals; for rates of any precision the tax of a positive subtotal comes back exactly when that
  subtotal is at most 100.00 (`AnyPrecisionTaxRecomputes`), and 100.01 at 0.50001 loses a cent (`FiveDecimalsLoseACent`).
- The totals of a document whose lines carry no rate are described as unchanged since rates moved to the lines. They
  are, for every document at a given rate, exactly when that rate has at most four decimals; the document rate of a
  request may have more (`InvoiceTotals.NothingShiftsIff`, `FiveDecimalsShift`).
- The comparison windows are described as equal in length. The calendar ones are equal only in the months, quarters
  and years that `TimeWindows.CalendarLengthsEqualIff` lists.
- A denied caller is told how many seconds to wait. The figure is truncated, so the window may still be open then
  (`RateLimitRuns.RetryTimeCoversIff`). Once it has ended, the first hit is admitted (`FirstBackIsAdmitted`), but other
  callers of the bucket may have used up the next window before the denied one returns (`RetryAfter`, with both
  failures in `RetryExample`).
- The number parsers are documented to return nothing for text that is not a number. The empty term and a bare prefix
  are read as number 0 (`DocumentNumbers.EmptyTermIsZero`).
- Tax-id keys are meant to make every spelling of one identifier compare the same. The key of a RUT is its digits exactly
  when only digits and tax-id punctuation follow the label (`CustomerKeys.KeyIsItsDigitsIff`). RUT validation ignores every other
  character as well, so a valid RUT written with commas has another key (`CommasChangeTheKey`, `CommaExample`) and is
  stored beside the same RUT written without them (`CustomerDuplicates.SameRutRefusedIff`, `CommaRutStoredTwice`). In
  digits and punctuation alone no organization ever stores a RUT twice (`CustomerImports.RutStoredPlainlyOnce`).
- Writing the label in front of an identifier changes its key exactly when the identifier is labelled already or has a
  colon among its leading separators (`CustomerKeys.LabelDoesNotMatterIff`, `ColonExample`). Normalising a tax id twice differs from
  normalising it once exactly when what follows the label spells "rut", as in "RUT RUT 5" (`NormalizingTwiceIff`,
  `TwoLabelsNormaliseTwice`, `RutRutFive`).
- A comment lists "+598 99 123 456", "(598) 99-123-456" and "598.99.123.456" as phone numbers that compare the same. The
  last two do, and neither agrees with the first (`CustomerKeys.ListedSpellings`, with the listed strings in
  `ListedExample`). It calls all but digits and a leading "+" formatting, but a sign counts wherever it stands: spellings
  of the same digits agree exactly when their signs stand in the same places among the digits (`SameDigitsAgreeIff`), so
  "(+598)" is "+598" and not "598" (`BracketedSign`).
- Google sign-in is documented never to create a second account for the same person. A second Google account with a
  linked user's email replaces the first one's link. If the first comes right back reporting another email, it leads to
  another account (`GoogleOAuthRuns.ReplacedAccountComesBackIff`, `TwoAccountsExample`); if it comes back with the old email
  first, it is linked again and keeps the user (`RelinkedExample`). Over any run an account leads to a user exactly while
  it is linked to them, or is linked to nobody and reports their email (`AccountLeadsToIff`).
- A user created by Google sign-in who wants to disconnect is told to set a password by resetting it. Resetting does
  not set the flag that disconnecting asks for: only those whom a registration created may ever disconnect
  (`GoogleOAuthRuns.DisconnectIff`, `DisconnectExample`).

## Model

| member | source | states |
|---|---|---|
| Rounding.RoundHalfEven | app/analytics/primitives.py:21-28 | The result is a nearest integer and is even at a tie (roundTiesToEven, section 4.3.1 of IEEE 754-2008). |
| Rounding.RoundIsTheOnlyOne | app/analytics/primitives.py:21-28 | Those two properties leave exactly one possible result, so they define the rounding. |
| Rounding.QuantizeMoneyMonotone | app/analytics/primitives.py:21-28 | Rounding to cents never reverses the order of two amounts. |
| Rounding.QuantizeMoneyIsNearest | app/analytics/primitives.py:21-28 | The result is a whole number of cents nearest to the amount, an even one at a tie. |
| Forecast.ForecastNextPeriod | app/analytics/forecast.py:173-186 | A forecast exists exactly from two points on and names the method asked for; its inputs are the most recent points, as many as the window allows, and all of them for the trend, which reports no window. |
| Forecast.ValueComesFromInputs | app/analytics/forecast.py:85-186 | The published value is the rounded estimate of the method from exactly the inputs published beside it. |
| Forecast.DenominatorClosedForm | app/analytics/forecast.py:128-152 | For n points the regression denominator is n²(n²−1)/12, positive from two points on, so the zero guard is reached by a single point only. |
| Forecast.FitIsTheUniqueLeastSquaresLine | app/analytics/forecast.py:128-152 | The computed slope and intercept have the least sum of squared residuals among all lines, and no other line ties with them. |
| Forecast.AffineHistoryIsContinued | app/analytics/forecast.py:155-170 | A history that lies on a line is extrapolated along that line exactly, up to the final rounding. |
| Forecast.TrendVersusAverages | app/analytics/forecast.py:85-170 | Over the same points, (trend − mean)(n − 1) = 3(n + 1)(weighted − mean). |
| Forecast.WeightedBetweenAverageAndTrend | app/analytics/forecast.py:104-170 | The weighted average always lies between the plain average and the linear trend. |
| Forecast.RoundedForecastsKeepTheOrder | app/analytics/forecast.py:85-186 | The three published, rounded forecasts keep that order whenever the window covers the history. |
| Forecast.MovingAveragesStayInRange | app/analytics/forecast.py:85-125 | For any window both moving averages stay within the range of the points they used, after rounding too. |
| TaxGroups.GroupLinesByTaxRate | app/tax_groups.py:49-72 | Every rate of the document is listed once, highest first, with the sum of its lines as base and the tax rounded once on that base. |
| TaxGroups.RateOfLine | app/tax_groups.py:49-72 | A line is grouped at its rate rounded to four decimals, and at zero if it has none. |
| TaxGroups.GroupingIsUnique | app/tax_groups.py:49-72 | That contract leaves one possible list of groups. |
| TaxGroups.GroupsIgnoreLineOrder | app/tax_groups.py:49-72 | Any permutation of the lines gives the same groups. |
| TaxGroups.GroupsConserve | app/tax_groups.py:33-72 | The bases add up to the document's net total, and the total tax is within half a cent per group of the unrounded tax. |
| InvoiceTotals.ComputeInvoiceTotals | app/services/invoices.py:153-210 | The loop's line totals are those of the items, the groups are the grouping of the items' lines, and bases, taxes and total add up; `ItemsDecide` says what that means for the items. |
| InvoiceTotals.ItemsDecide | app/services/invoices.py:153-210 | Line totals are the rounded products of quantity and price; an item is charged at its own rate if it has one, zero included, and else at the document's; every such rate and no other has one group, highest first, whose base is the sum of the line totals at it and whose tax is rounded once; subtotal, tax and total are the sums. |
| InvoiceTotals.OwnRatesDecide | app/services/invoices.py:194-196 | If every item has its own rate, any two document rates give the same totals. |
| InvoiceTotals.OwnRateExample | app/services/invoices.py:194-196 | One line of 100.00 at its own rate 0.10 on a document at 0.22 is charged 10.00 of tax. |
| InvoiceTotals.NothingShiftsIff | app/services/invoices.py:168-178 | Documents whose lines all inherit the rate are charged the rounded product of subtotal and rate, as before per-line rates, if and only if the rate has at most four decimals. |
| InvoiceTotals.FiveDecimalsShift | app/services/invoices.py:168-178 | One line of 100.01 on a document at rate 0.50001 is charged 50.00, and was charged 50.01 before. |
| TaxBackfill.Database.AddLineItemTaxRates | app/schema_migrations.py:2433-2514 | A table without the column gets it, each invoice line with the quotient of its invoice, each quote line with its quote's rate; nothing else changes, and a table that has the column is left alone. |
| TaxBackfill.MigratedRow | app/schema_migrations.py:2433-2514 | Only a line's rate is written: for an invoice the rounded quotient of tax and subtotal, or 0 without a positive subtotal or a parent; for a quote the parent's rate, or 0 without one. |
| TaxBackfill.HistoricalTaxRecomputes | app/schema_migrations.py:2433-2514 | For a four-decimal original rate, the recovered rate recomputes the stored tax exactly, however ROUND breaks ties, if and only if the subtotal is not negative or the tax is zero. |
| TaxBackfill.EveryRateComesBack | app/schema_migrations.py:2433-2514 | Every rate itself is recovered if and only if the subtotal is at least 100.00. |
| TaxBackfill.SmallInvoiceLosesTheRate | app/schema_migrations.py:2433-2514 | On a subtotal of 1.00 the rate 0.2201 comes back as 0.2200. |
| TaxBackfill.AnyPrecisionTaxRecomputes | app/schema_migrations.py:2433-2514 | For a positive subtotal, the stored tax is recomputed for every `Decimal` rate, and for every real rate too, if and only if the subtotal is at most 100.00. |
| TaxBackfill.FiveDecimalsLoseACent | app/schema_migrations.py:2433-2514 | A subtotal of 100.01 at rate 0.50001 stores a tax of 50.01 and recomputes it as 50.00, however ROUND breaks ties. |
| TaxGroups.SingleRateDocument | app/tax_groups.py:60-72 | A document whose lines share one rate is taxed once, on its whole net total. |
| TaxBackfill.MigratedInvoiceKeepsItsTotals | app/schema_migrations.py:2496-2514 | End to end over the line rows: an untouched invoice regroups after the migration to the subtotal and tax it stores. |
| TaxBackfill.MigratedQuoteKeepsItsTotals | app/schema_migrations.py:2433-2514 | An untouched quote regroups after the migration to its total taxed at its own rate. |
| RateLimit.InMemoryRateLimiterBackend.Hit | app/rate_limit.py:125-137 | One locked call leaves the table and returns the decision that the step functions of a run describe. |
| RateLimit.InMemoryRateLimiterBackend.MaybeSweep | app/rate_limit.py:139-149 | A sweep fires by the random roll and removes exactly the entries that are stale. |
| RateLimit.KeysSeparateWindows | app/rate_limit.py:209 | Two rules of one check share a bucket if and only if they have the same window. |
| RateLimit.HitEveryRule | app/rate_limit.py:200-230 | All rules of a check are counted, in order, and the longest retry time so far is kept. |
| RateLimit.EnforceRateLimit | app/rate_limit.py:200-230 | Every rule of every check is counted before the call fails; it fails if and only if some rule denied, with the longest retry time among those. |
| RateLimit.EveryRuleIsCounted | app/rate_limit.py:207-210 | A call counts one hit for every rule of every check and nothing else, in order, each under the key scope:window:identity and with its own clock reading. |
| RateLimitRuns.SweepsAreInvisible | app/rate_limit.py:118-149 | Two runs that differ only in when sweeps fire return the same decisions and retry times, for windows up to the stale age. |
| RateLimitRuns.SweepNeverShowsIff | app/rate_limit.py:118-149 | Sweeping never shows under a rule if and only if its window is at most 3600 seconds. |
| RateLimitRuns.ConfiguredRulesAreSafe | app/rate_limit.py:262-371 | Every limit and window configured in rate_limit.py, and in the five rule sets of app/whatsapp/service.py:87-95 and the four of app/routers/assistant.py:42-48, app/routers/insights.py:66 and app/services/assistant_actions.py:44, meets that condition. |
| RateLimitRuns.WindowAdmitsItsFirstHits | app/rate_limit.py:125-137 | In every run under windows of at most 3600 seconds a hit is admitted if and only if it is among the first `limit` hits of its window, and it falls inside that window. |
| RateLimitRuns.WindowsStartApart | app/rate_limit.py:125-137 | Two hits of a bucket are counted in the same window or in windows that begin at least one window length apart. |
| RateLimitRuns.StretchBound | app/rate_limit.py:125-137 | Any half-open interval of one window length sees at most 2·limit − 1 admitted hits of a bucket. |
| RateLimitRuns.StretchBoundIsTight | app/rate_limit.py:125-137 | For every rule some run admits exactly 2·limit − 1 hits in such an interval. |
| RateLimitRuns.RetryAfter | app/rate_limit.py:125-137 | In every run under such windows, a hit after a denied one on the same bucket is admitted if and only if the denied hit's window has ended and the hit is among the first `limit` of its own window, other callers' hits included. |
| RateLimitRuns.FirstBackIsAdmitted | app/rate_limit.py:125-137 | The first hit on the bucket after the denied hit's window has ended is always admitted. |
| RateLimitRuns.RetryTimeCoversIff | app/rate_limit.py:125-137 | The retry time covers the rest of the window if and only if nothing was truncated or at most one second was left; one second more always covers it. |
| RateLimitRuns.RetryExample | app/rate_limit.py:125-137 | With one hit per minute, a caller told at 30.5 to wait 29 seconds is denied at 59.5, because the figure was truncated, and at 60.5 too, because somebody else came at 60.0. |
| RateLimitChecks.BucketsSharedIff | app/rate_limit.py:200-212 | Under scopes none of whose parts between colons is a number, two rules of any two checks share a bucket if and only if scope, window and identity are equal. |
| RateLimitChecks.NumberedScopesCollide | app/rate_limit.py:209 | Scope "a" with identity "5:x" and scope "a:5" with identity "x" share a bucket under a window of 5 seconds. |
| RateLimitChecks.EveryBucketHasOneRule | app/rate_limit.py:200-212 | In every run of calls that configure one limit for each such scope and window, every bucket is counted under one rule only, whatever checks the calls mix. |
| RateLimitChecks.CallsStayBounded | app/rate_limit.py:125-212 | So in those runs any half-open interval of one window length sees at most 2·limit − 1 admitted hits of a bucket. |
| RateLimitChecks.CallFailsIff | app/rate_limit.py:125-230 | After any such run of calls the next one fails if and only if some rule of some of its checks is hit beyond the first `limit` hits of its window, and it carries the longest retry time among the hits denied. |
| AssistantStream.Consume | app/ai/anthropic_provider.py:127-197 | One event changes only the buffer of its own index and emits what that event owes. |
| AssistantStream.IterEvents | app/ai/anthropic_provider.py:127-197 | The loop over response lines emits exactly what the decoded events owe, in order. |
| AssistantStream.BlockIsIsolated | app/ai/anthropic_provider.py:127-197 | However blocks are interleaved, an index emits what its own events alone would emit. |
| AssistantStream.RemovingABlock | app/ai/anthropic_provider.py:127-197 | Deleting a block's events deletes its own output and nothing else. |
| AssistantStream.SilentBlockDropsOnlyItself | app/ai/anthropic_provider.py:165-197 | A block with malformed arguments, or one that never closes, costs nothing else. |
| AssistantStream.BlockYieldsItsCall | app/ai/anthropic_provider.py:127-197 | However interleaved, a complete tool block yields exactly one call, with what the concatenation of its own fragments parses to, or with the empty arguments if that is blank; and nothing if it is not blank and does not parse. |
| AssistantStream.CutsDoNotMatter | app/ai/anthropic_provider.py:127-197 | Two ways of cutting the same argument text into fragments yield the same call. |
| AssistantStream.CutAnywhere | app/ai/anthropic_provider.py:163-164 | One more cut between any two characters leaves the text put together as it was. |
| AssistantStream.BlocksFollowEachOther | app/ai/anthropic_provider.py:127-197 | An index may be used again: each whole block puts out its own call in its place, whatever stood before it, and nothing of it reaches later events of the index. |
| AssistantStream.UnopenedIndexIsSilent | app/ai/anthropic_provider.py:127-197 | An index at which no tool block starts puts out nothing. |
| AssistantStream.LineCarries | app/ai/anthropic_provider.py:127-143 | A line carries an event if and only if it begins with "data:" and what follows, trimmed, is not empty and decodes. |
| AssistantStream.TextPassesThrough | app/ai/anthropic_provider.py:127-197 | Text comes out unchanged and in order whatever happens to the tool blocks. |
| AssistantEngine.HandleToolInvocation | app/ai/engine.py:67-174 | The first failing check decides the answer and nothing is stored; a call that passes stores exactly one proposed action and announces that row. |
| AssistantEngine.RunChatTurn | app/ai/engine.py:177-223 | A turn answers the first call where it stands between the prose before and after it, drops later calls, and stores a row exactly for a proposal. |
| AssistantEngine.TurnGuarantees | app/ai/engine.py:177-223 | All non-empty prose comes out in order; at most one event is anything else, exactly when the stream held a call; a row is stored exactly when that event is a proposal, and the event names it. |
| AssistantEngine.FirstCallDecides | app/ai/engine.py:67-223 | The first call of a turn stores one row if and only if its tool is known and permitted, no rate or plan limit is reached and its arguments build a proposal; the row is the asking user's in their organization, with the tool, what was built and an expiry in ten minutes, and is announced; otherwise the answer is that of the first check that fails. |
| AssistantEngine.AnswerStandsAtTheCall | app/ai/engine.py:177-223 | The answer comes after all text that precedes the call and before all that follows it. |
| AssistantEngine.NoCallNoRow | app/ai/engine.py:177-223 | Without a call nothing is stored and everything put out is text. |
| AssistantEngine.ProviderTextReachesTheUser | app/ai/engine.py:177-223 | Across both layers the user receives every non-empty piece of provider text, once and in order. |
| Calendar.AddMonths | app/analytics/time_windows.py:75-87 | The result is the first of the month that many months away, and exists exactly while that month is in the years 1 to 9999. |
| Calendar.AddMonthsComposes | app/analytics/time_windows.py:75-87 | Adding a months and then b months is adding a + b months, negative counts included. |
| Calendar.MonthStep | app/analytics/time_windows.py:75-87 | Consecutive month starts are one month length apart on the line of days, across year ends and leap years. |
| Calendar.MonthLengthsAre | app/analytics/time_windows.py:75-87 | Months have the lengths of the Gregorian calendar, leap years by the rules of 4, 100 and 400. |
| Calendar.YearBegins | app/analytics/time_windows.py:75-87 | A year begins 365 days per year before it and one per leap year after day 1, counted by those rules. |
| Calendar.MinusDays | app/analytics/time_windows.py:95-157 | Subtracting days moves back that many days on the line of days and fails exactly when it would leave year 1. |
| TimeWindows.WindowsPartitionTime | app/analytics/time_windows.py:95-157 | A month, quarter or year window exists if and only if its period ends by the end of 9999, and contains an instant if and only if the instant belongs to the same period; so every instant before the last period of its kind lies in exactly one window. |
| TimeWindows.WindowsAreNotEmpty | app/analytics/time_windows.py:95-157 | Whatever kind is resolved, the window is of that kind and never empty. |
| TimeWindows.WindowExistsIff | app/analytics/time_windows.py:95-157 | A window is resolved if and only if it stays within the years 1 to 9999 and, when custom, has both bounds with the end after the start. |
| TimeWindows.TodayHolds | app/analytics/time_windows.py:95-157 | Today's window holds exactly the instants of the organization's local date, and fails only on the last day of 9999. |
| TimeWindows.YesterdayHolds | app/analytics/time_windows.py:95-157 | Yesterday's window holds exactly the instants of the day before the local date, and fails only on the first day of year 1. |
| TimeWindows.LastDaysHold | app/analytics/time_windows.py:95-157 | The 7-day and 30-day windows hold exactly the instants from so many times 24 hours ago until now. |
| TimeWindows.CustomHolds | app/analytics/time_windows.py:95-157 | A custom window is refused without both bounds or with an end not after the start, each with its own error, and else holds exactly what lies from one to the other. |
| TimeWindows.CalendarWindowHolds | app/analytics/time_windows.py:95-157 | The month, quarter or year window holds exactly the instants of the moment's own month, quarter or year. |
| TimeWindows.PreviousMonthHolds | app/analytics/time_windows.py:95-157 | The previous month's window holds exactly the instants of the month before, across the year's end too. |
| TimeWindows.DaysMeet | app/analytics/time_windows.py:95-157 | Yesterday ends where today begins, and both last one day. |
| TimeWindows.MonthsMeet | app/analytics/time_windows.py:95-157 | The previous month ends where the current one begins, and each is one month long. |
| TimeWindows.CalendarComparison | app/analytics/time_windows.py:207-267 | The previous month, quarter or year ends exactly where the current one starts, neither is empty, and the current one contains the moment. |
| TimeWindows.ComparedHold | app/analytics/time_windows.py:207-267 | The first window compared is the one resolved for the kind, and the second holds exactly the instants of the month, quarter or year before. |
| TimeWindows.ComparisonExistsIff | app/analytics/time_windows.py:207-267 | A comparison exists if and only if the kind is one of five and both of its windows stay within the years 1 to 9999; every other kind, and only those, is refused as unsupported. |
| TimeWindows.RollingComparison | app/analytics/time_windows.py:207-267 | The 7-day and 30-day pairs are adjacent, end now and are equally long, and fail exactly when they would leave year 1. |
| TimeWindows.CalendarLengthsEqualIff | app/analytics/time_windows.py:207-267 | The two calendar windows have the same length exactly in January and August, in the fourth quarter and a leap year's second quarter, and in a common year after a common year. |
| TimeWindows.TrailingSeries | app/analytics/time_windows.py:160-189 | Each trailing series has n consecutive periods, the last of which is the current one. |
| TimeWindows.TrailingSeriesExistIff | app/analytics/time_windows.py:160-189 | Each of the three trailing series exists if and only if its oldest period begins in year 1 or later. |
| TimeWindows.SeriesIncreases | app/analytics/time_windows.py:160-189 | The starts strictly increase. |
| TimeWindows.SeriesTilesTime | app/analytics/time_windows.py:160-189 | Every instant from the first start to the end of the current period lies in exactly one period of the series. |
| RequestMetrics.DropStaleIsRecent | app/request_metrics.py:76-80 | Popping stale samples from the front of a chronological deque keeps exactly the samples within the window. |
| RequestMetrics.RecentIff | app/request_metrics.py:76-80 | A sample is kept, as often as it was taken, exactly if it is no older than 900 seconds. |
| RequestMetrics.DequeAgreesWithHistory | app/request_metrics.py:51-80 | After any run of calls the deque is sorted and holds exactly the samples of the last 900 seconds out of all ever recorded. |
| RequestMetrics.InMemoryRequestMetrics.RecordRequest | app/request_metrics.py:51-55 | Recording adds the sample to the history and keeps the deque in agreement with it. |
| RequestMetrics.InMemoryRequestMetrics.TakeSnapshot | app/request_metrics.py:57-74 | A snapshot is the count, mean and error share over the whole history filtered to the last 900 seconds. |
| RequestMetrics.SummaryIs | app/request_metrics.py:57-74 | A snapshot gives the number of samples and, if there are any, their mean duration and percentage of errors to two decimals. |
| RequestMetrics.MeanWithin | app/request_metrics.py:57-74 | The reported mean lies between the shortest and the longest duration. |
| RequestMetrics.ErrorShareWithin | app/request_metrics.py:57-74 | The reported share of errors lies between 0 and 100, is 0 if there are none and 100 if all are errors. |
| RequestMetrics.InMemoryRequestMetrics.EvictStale | app/request_metrics.py:76-80 | The eviction loop pops exactly the stale samples at the front. |
| GoogleOAuth.Database.BeginAuthorization | app/google_oauth.py:98-119 | A new state is stored with its nonce and a ten-minute expiry; a state that exists is refused. |
| GoogleOAuth.Database.ConsumeState | app/google_oauth.py:139-166 | It succeeds exactly for a known, unused, unexpired state equal to the cookie, and then marks that row used; a refusal changes nothing. |
| GoogleOAuth.Database.FindOrLinkUser | app/google_oauth.py:266-299 | The user found by Google account, else the one found by email and now linked, else a new one. |
| GoogleOAuth.Database.CompleteGoogleSignIn | app/google_oauth.py:403-412 | Sign-in succeeds exactly when the state is consumed and the claims verify; a consumed state stays consumed otherwise. |
| GoogleOAuth.Database.HandleCallback | app/routers/auth.py:665-709 | The callback's whole effect on states, users and handoffs; a code is handed out exactly when one is stored, and a disabled user is told so and gets none. |
| GoogleOAuth.Database.ConsumeHandoff | app/google_oauth.py:384-400 | It returns the user exactly for a known, unused, unexpired code, and then marks it used. |
| GoogleOAuth.Database.ExchangeHandoff | app/routers/auth.py:712-730 | A session opens exactly for a good code whose user is not disabled; a good code is spent either way. |
| GoogleOAuth.Database.RegisterUser | app/routers/auth.py:146-197 | Registration adds one user with the normalised email, unless the email is malformed or taken. |
| GoogleOAuth.Database.DisconnectGoogle | app/routers/auth.py:738-766 | Disconnecting works exactly for a linked user who is not disabled and whose `password_set` is true. |
| GoogleOAuthRuns.StateSpentOnce | app/google_oauth.py:139-166 | In every run a state is spent at most once, whatever came of the first attempt. |
| GoogleOAuthRuns.HandoffGrantedOnce | app/google_oauth.py:384-400 | In every run a handoff code opens at most one session. |
| GoogleOAuthRuns.SignInIsBacked | app/google_oauth.py:98-166 | Every sign-in completes a flow begun less than ten minutes before, whose state came back both in the address and in the cookie, with a verified token carrying that flow's nonce. |
| GoogleOAuthRuns.SessionIsBacked | app/google_oauth.py:372-412 | Every session is for a user, not disabled then or now, whom some callback signed in less than two minutes before, and that callback completed such a flow. |
| GoogleOAuthRuns.CallbackAcceptedIff | app/google_oauth.py:98-260 | In any run a callback signs in if and only if the state of a flow begun less than ten minutes before comes back in address and cookie, nobody brought it back in time before, and the token carries that flow's nonce and a verified identity, whose email then counts trimmed and in lower case. |
| GoogleOAuthRuns.ExchangeOpensIff | app/google_oauth.py:372-400 | In any run a code opens a session if and only if it is exchanged less than two minutes after the callback that handed it over, the user is not disabled by then, and nobody exchanged it in that time before. |
| GoogleOAuthRuns.WholeFlowOpensSession | app/routers/auth.py:636-730 | A flow that keeps its times opens a session for the user its account resolves to, whatever other requests come in between. |
| GoogleOAuthRuns.RunKeepsDistinct | app/google_oauth.py:266-299 | In every run no two users share an email or a Google account. |
| GoogleOAuthRuns.EmailsNeverAgree | app/google_oauth.py:254-260 | Starting from no users, emails never agree even up to case and outer blanks. |
| GoogleOAuthRuns.NobodyIsLockedOut | app/routers/auth.py:738-766 | In every run each user keeps a chosen password or a Google account. |
| GoogleOAuthRuns.DisconnectIff | app/routers/auth.py:738-766 | At any point of any run a user may disconnect if and only if they are linked and not disabled then and the step that created them was a registration; no step in between, password resets included, counts. |
| GoogleOAuthRuns.DisconnectExample | app/routers/auth.py:738-766 | Signing in with Google and then resetting the password leaves a user with both ways in who may not disconnect. |
| GoogleOAuthRuns.UserIsPermanent | app/routers/auth.py:738-766 | In every run users stay, with the email and the `password_set` they were created with. |
| GoogleOAuthRuns.RegistersIff | app/routers/auth.py:146-197 | Registration adds one user, with the trimmed lower-case email and a password of their own, if and only if it is admitted, the email is well formed and nobody has it. |
| GoogleOAuthRuns.LinkingIs | app/google_oauth.py:266-299 | A sign-in changes nothing for a linked account, links the account to the user with its email otherwise, and adds a new user without a password if there is none. |
| GoogleOAuthRuns.StepOnUser | app/routers/auth.py:436-766 | Only the change of status changes whether a user is disabled, only a reset changes their password, and of the requests without a Google account only disconnecting changes the link. |
| GoogleOAuthRuns.ResolvingAgain | app/google_oauth.py:266-299 | Signing in again at once returns the same user and changes nothing, whatever email is reported. |
| GoogleOAuthRuns.LinkedThroughoutIff | app/google_oauth.py:266-299 | A user stays linked to a Google account through a run if and only if no step disconnects them or links another account by their email. |
| GoogleOAuthRuns.SameAccountUntilUnlinked | app/google_oauth.py:266-299 | Until such a step, the Google account keeps resolving to the same user, even if it reports somebody else's email. |
| GoogleOAuthRuns.ReplacedAccountComesBackIff | app/google_oauth.py:290-299 | At the sign-in right after another Google account took over the link, the first one leads back to the user if and only if it still reports the user's email. |
| GoogleOAuthRuns.AccountLeadsToIff | app/google_oauth.py:266-299 | At any point of any run a Google account leads to a user if and only if it is linked to them then, or is linked to nobody and reports the email the user has had since they were created. |
| GoogleOAuthRuns.TwoAccountsExample | app/google_oauth.py:290-299 | A first Google account that comes back with a new email after a second one replaced it gets an account of its own. |
| GoogleOAuthRuns.RelinkedExample | app/google_oauth.py:290-299 | Had it come back with the old email once, it would be linked again and lead to the first account under any email. |
| UruguayRut.ValidIffDivisible | app/uruguay_rut.py:79-109 | A RUT is accepted if and only if its twelve digits, the last with weight 1, have a weighted sum divisible by 11. |
| UruguayRut.ValidIffWeightedSum | app/uruguay_rut.py:79-109 | The same with the twelve weights written out. |
| UruguayRut.SingleErrorDetected | app/uruguay_rut.py:79-109 | Changing any one digit of a valid RUT gives digits that the validator rejects, however they are spelled. |
| UruguayRut.SwapDetected | app/uruguay_rut.py:79-109 | Swapping two adjacent unequal digits of a valid RUT gives digits that the validator rejects, however they are spelled. |
| UruguayRut.FormattingKeepsTheRut | app/uruguay_rut.py:112-120 | Formatting keeps the digits and the validity of any value, and returns anything invalid untouched. |
| UruguayRut.ComputeRutCheckDigit | app/uruguay_rut.py:79-93 | A check value exists exactly for eleven digits, lies between 0 and 10 and completes their weighted sum to a multiple of 11. |
| CustomerKeys.KeyOf | app/customer_validation.py:38-66 | A tax-id key is what follows the optional label, without punctuation or blanks and in lower case. |
| CustomerKeys.NormalizingTwiceIff | app/customer_validation.py:38-66 | Normalising twice is normalising once if and only if what follows the label does not itself spell "rut". |
| CustomerKeys.TwoLabelsNormaliseTwice | app/customer_validation.py:38-66 | For any digits behind two labels, the first normalisation takes one label off and the second takes off the other; "RUT RUT 5" is such a value. |
| CustomerKeys.KeyIsItsDigitsIff | app/customer_validation.py:38-66 | A key is the digits that RUT validation reads if and only if nothing but digits and tax-id punctuation follows the label. |
| CustomerKeys.CommasChangeTheKey | app/customer_validation.py:38-66 | Every valid RUT stays valid with commas between its groups, but then its key is not its digits. |
| CustomerKeys.CommaExample | app/customer_validation.py:38-66 | 21,100342,001,7 is a valid RUT whose key is not 211003420017. |
| CustomerKeys.FormattedRutHasItsDigitsAsKey | app/customer_validation.py:38-66 | The program's own display form of a valid RUT and its bare digits both have the twelve digits as key. |
| CustomerKeys.LabelDoesNotMatterIff | app/customer_validation.py:38-66 | Writing the label in front of an identifier, in any of its spellings and with any separators, leaves its key alone if and only if the identifier carries no label yet and has no colon among the separators it begins with. |
| CustomerKeys.ColonExample | app/customer_validation.py:38-66 | ":5" and "RUT :5" have different keys. |
| CustomerKeys.NormalizingEmailTwice | app/customer_validation.py:25-29 | An email key is its own key. |
| CustomerKeys.EmailsAgreeIff | app/customer_validation.py:25-29 | Two emails have the same key if and only if, without the blanks around them, they differ in case only. |
| CustomerKeys.NormalizingPhoneTwice | app/customer_validation.py:76-91 | A phone key is its own key; the "00" prefix is rewritten once. |
| CustomerKeys.InternationalPrefixesAgree | app/customer_validation.py:76-91 | Whatever follows, a number written with "00" and with "+" has the same key. |
| CustomerKeys.SameDigitsAgreeIff | app/customer_validation.py:69-91 | Two spellings of the same digits have the same key if and only if their digits and "+" signs are the same in the same order; a sign counts wherever it stands, and all else is dropped. |
| CustomerKeys.PhonesAgreeIff | app/customer_validation.py:69-91 | Any two phone numbers have the same key if and only if their digits and signs are the same in the same order, or become so when a leading "00" of one of them is written "+". |
| CustomerKeys.BracketedSign | app/customer_validation.py:69-91 | Whatever follows, "(+598)" has the key of "+598" and not that of "598". |
| CustomerKeys.ListedSpellings | app/customer_validation.py:69-91 | Of the three spellings that the comment lists, the bracketed and the dotted one have the same key and the one with "+" has another, whatever the four groups of digits. |
| CustomerKeys.NormalizingNameTwice | app/customer_validation.py:97-105 | A name key is its own key. |
| CustomerKeys.BlanksBetweenNamesDoNotMatter | app/customer_validation.py:97-105 | However many blanks, of whatever kind, stand between two parts of a name, the key is the same. |
| CustomerKeys.NameKeyIs | app/customer_validation.py:97-105 | A name key is the words of the name in lower case, one blank apart, whatever blanks stood around and between them. |
| CustomerKeys.NamesAgreeIff | app/customer_validation.py:97-105 | Two names have the same key if and only if they have the same words in the same order, up to case. |
| CustomerDuplicates.CheckCustomerDuplicates | app/customer_duplicates.py:92-152 | The loop returns every match in row order and the worst severity among them. |
| CustomerDuplicates.ReportedIff | app/customer_duplicates.py:110-150 | A row is reported if and only if it is selected and shares a field, and then with exactly the reasons that apply. |
| CustomerDuplicates.ReportsIff | app/customer_duplicates.py:92-152 | In terms of the fields: reported are the organization's rows that share a tax id, email, phone or name with the input, up to normalisation, except the one with the excluded id, each with all the fields it shares in that order. |
| CustomerDuplicates.SeverityIff | app/customer_duplicates.py:48-85 | The overall severity reaches a level if and only if some selected row does: tax id blocks, email or phone warns, name suggests. |
| CustomerDuplicates.SeverityIs | app/customer_duplicates.py:48-152 | The severity is blocking if such a row shares the tax id, else a warning if one shares the email or phone, else a suggestion if one shares the name, else nothing. |
| CustomerDuplicates.FindTaxIdDuplicate | app/customer_duplicates.py:155-189 | The search loop returns the first row of the organization with the same non-empty key, other than the excluded one. |
| CustomerDuplicates.FindsFirst | app/customer_duplicates.py:155-189 | What the search finds is the first row of the organization with the same non-empty normalised tax id whose id is not the excluded one, and nothing if there is none. |
| CustomerDuplicates.FindersAgree | app/customer_duplicates.py:92-189 | The enforced check finds somebody if and only if the advisory check reports `blocking` for the same tax id and exclusion. |
| CustomerDuplicates.CustomerTable.CreateCustomer | app/services/customers.py:107-157 | A row is added unless the tax id is refused, and then the customer it collides with is reported. |
| CustomerDuplicates.CreateRefusedIff | app/services/customers.py:107-157 | A creation is refused if and only if some row of the organization has the same non-empty normalised tax id. |
| CustomerDuplicates.CreateAppends | app/services/customers.py:107-157 | A creation that is admitted and not refused appends its customer; any other changes nothing. |
| CustomerDuplicates.CustomerTable.UpdateCustomer | app/services/customers.py:160-201 | The given fields are set unless a non-empty new tax id is refused. |
| CustomerDuplicates.UpdateRefusedIff | app/services/customers.py:160-201 | An update is refused if and only if it sets a tax id that another row of the organization has, up to normalisation. |
| CustomerDuplicates.OwnTaxIdIsAccepted | app/services/customers.py:178-182 | Saving a customer with the tax id they have, in whatever spelling, is never refused. |
| CustomerDuplicates.UpdateSets | app/services/customers.py:160-201 | An update that goes through sets the given fields of its row and nothing else; one that does not changes nothing. |
| CustomerDuplicates.CustomerTable.DeleteCustomer | app/services/customers.py:204-223 | Exactly that row goes. |
| CustomerDuplicates.DeleteTakesOut | app/services/customers.py:204-223 | The other rows stay, in their order. |
| CustomerDuplicates.GuardedWritesKeepTaxIdsDistinct | app/services/customers.py:107-223 | After any run of guarded creates, updates and deletes no two customers of an organization share a non-empty normalised tax id. |
| CustomerDuplicates.SameRutRefusedIff | app/services/customers.py:107-157 | With a RUT stored in digits and punctuation, in a table of any size, a second customer with the same RUT is refused if and only if the second spelling has nothing but digits and punctuation after its label either, or a row spelled with other characters already has its key. |
| CustomerDuplicates.CommaRutStoredTwice | app/services/customers.py:107-157 | After 211003420017 the same RUT is stored again as 21,100342,001,7. |
| CustomerImports.RowProcessor.Process | app/imports/customers.py:150-207 | One row is judged against the fetched keys and those of the rows accepted before it, email first, and an accepted row adds its own. |
| CustomerImports.ImportCustomers | app/imports/base.py:92-169 | The import loop reports the status of every row and appends exactly the imported ones, in order. |
| CustomerImports.StatusIs | app/imports/customers.py:174-207 | A row is rejected as invalid if its fields are, else as a duplicate if its email and then its tax id is one of a row of the organization stored before or accepted from the file so far, else it is imported unless its insertion fails. |
| CustomerImports.StoredIs | app/imports/customers.py:230-240 | An imported row is stored with its own fields and the organization's id, after all rows before it. |
| CustomerImports.VerdictIsOneByOne | app/imports/customers.py:125-207 | Looking keys up in sets fetched once gives every row the verdict that searching the table anew each time would, the table as it would be if every accepted row had been stored; the tax-id half is the search that guards the other writes. |
| CustomerImports.ImportIsOneByOne | app/imports/base.py:92-169 | As long as no insertion fails, the table after an import is that of importing row by row with a fresh search each time. |
| CustomerImports.ImportedIsApart | app/imports/customers.py:125-207 | No imported row shares an email key or a tax-id key with any row of its organization before it, whichever insertions failed. |
| CustomerImports.ImportedIsNew | app/imports/customers.py:125-207 | In terms of the fields: when a row is imported, no row stored in its organization has its email or its tax id, up to normalisation. |
| CustomerImports.EveryRunKeepsTaxIdsDistinct | app/imports/customers.py:125-252 | After any run of guarded creates, updates, deletes and imports no two customers of an organization share a non-empty normalised tax id. |
| CustomerImports.RutStoredPlainlyOnce | app/services/customers.py:107-223 | In such a run two customers of an organization hold the same valid RUT only if at least one of them spells it with something other than digits and punctuation. |
| DocumentNumbers.ParseReadsTheDigits | app/invoice_numbering.py:16-26 | A term reads as a number exactly when what follows the optional prefix is all digits, and as the number those spell. |
| DocumentNumbers.ParseUndoesFormat | app/invoice_numbering.py:12-26 | Every printed number reads back as itself, beyond six digits too. |
| DocumentNumbers.PrintedIs | app/invoice_numbering.py:12-26 | A number is printed as the prefix of its kind and digits that spell it, at least six of them, and more only without a leading zero. |
| DocumentNumbers.AnySpellingParses | app/invoice_numbering.py:16-26 | A number is read with blanks around it, with its prefix in any case and with any number of leading zeros. |
| DocumentNumbers.KindsAreNotConfused | app/adjustment_note_numbering.py:17-46 | One kind's printed number is never read by another kind's parser. |
| DocumentNumbers.BareNumbersParse | app/quote_numbering.py:10-24 | A bare number, padded to any width, is read by every kind's parser. |
| DocumentNumbers.EmptyTermIsZero | app/invoice_numbering.py:16-26 | The empty term and a bare prefix are read as number 0. |
| ReminderDays.ParseDayList | app/reminder_settings.py:14-29 | The loop returns the in-bounds numbers among the trimmed parts, in order. |
| ReminderDays.OnePart | app/reminder_settings.py:14-29 | A part stands for its number if it is one, trimmed, from 1 to 90, and else for nothing. |
| ReminderDays.CommaSeparates | app/reminder_settings.py:14-29 | What stands on either side of a comma is read by itself, whatever is wrong with the other. |
| ReminderDays.ParseUndoesFormatIff | app/reminder_settings.py:14-33 | A list of days survives printing and parsing if and only if every day is within 1 to 90. |
| ReminderDays.AnyStringReadsInBounds | app/reminder_settings.py:14-29 | Whatever is stored, only days within bounds are read. |
| Backfills.Database.BackfillSubscriptions | app/schema_migrations.py:1784-1840 | Existing rows are kept and new ones appended, one for each organization without a subscription, with that organization's plan and the starting values. |
| Backfills.NewSubscriptionsAre | app/schema_migrations.py:1784-1840 | An organization is given a subscription if and only if it has none: its own plan, active, monthly, for thirty days from now, version 1. |
| Backfills.EveryOrganizationIsSubscribed | app/schema_migrations.py:1784-1840 | Afterwards each organization that had none has exactly one subscription, and nobody else's count has changed. |
| Backfills.SecondSubscriptionRunAddsNothing | app/schema_migrations.py:1784-1840 | A second run adds no subscription. |
| Backfills.Database.BackfillDeliveryJobs | app/schema_migrations.py:1366-1434 | Existing jobs are kept and new ones appended, each a first job for a delivery that was never attempted. |
| Backfills.NewJobsAre | app/schema_migrations.py:1366-1434 | A delivery is given a job if and only if it is pending, was never attempted and no job is there under its key; the job carries its organization, id and key, and the starting values. |
| Backfills.EveryWaitingDeliveryHasAJob | app/schema_migrations.py:1366-1434 | Afterwards each never-attempted delivery without a job has exactly one under its key, and no other key gains or loses one. |
| Backfills.SecondJobRunAddsNothing | app/schema_migrations.py:1366-1434 | A second run, at any later time, adds no job. |
| InvoiceCounters.Database.BackfillInvoiceNumbers | app/schema_migrations.py:1437-1463 | The nested loops number each organization's invoices by their place in the query's answer and set its counter one past the last. |
| InvoiceCounters.BackfillNumbersByDate | app/schema_migrations.py:1437-1463 | Afterwards an organization's invoices carry 1 to k once each, older ones smaller numbers, and its counter is k + 1. |
| InvoiceCounters.Database.CreateInvoiceRecord | app/services/invoices.py:311-366 | A new invoice takes the counter's number and moves it on by one; a refused due date moves nothing. |
| InvoiceCounters.CreationDraws | app/services/invoices.py:311-366 | An accepted creation appends one invoice with the counter's number, moves that counter on by one and changes nothing else. |
| InvoiceCounters.NumbersStayGapFree | app/services/invoices.py:311-366 | Through any run of creations no number is skipped or given out twice in an organization. |

## Left out

- Floating point: the forecasts, the rate limiter's clock and the request metrics use real arithmetic, and `Decimal` quotients are exact rather than cut to 28 digits.
- Forecast labels, confidence notes and the integer-count wrappers in `app/analytics/service.py`: they only wrap the values modelled.
- Line totals with fractions of a cent in `TaxGroups`: every caller rounds line totals before grouping, so grouping starts from whole cents.
- Unicode: digits, blanks, case and accents beyond ASCII.
- Concurrency inside one step: every locked section, transaction or request is one atomic step, so two callbacks racing between reading and marking the same state row are not described.
- Clocks that run backwards: the rate limiter and the metrics are described for nondecreasing clock readings.
- RateLimitRuns.StretchBound: describes windows of at most 3600 seconds, as do the other results on whole runs, because a longer window can be swept while it is open (`SweepNeverShowsIff`); no configured window is longer.
- Random codes and primary keys: they are parameters; a repeated code is refused, as the table's unique constraint does.
- Google's token endpoint, key sets and signature checks: a token is given by its claims once those checks have passed.
- Sessions after the exchange, and the password-reset and email-verification tokens: a reset is the step that a valid token allows. Who may disable or enable a user, and the audit rows that leaves, are not described; the change of status is.
- GoogleOAuth.Database.FindOrLinkUser: does not model the organization, membership and subscription that a new user also gets, because they do not affect which user an identity resolves to.
- GoogleOAuth.Database.RegisterUser: does not model the organization and membership rows that registration also creates, because nothing in sign-in reads them.
- GoogleOAuthRuns.SignInIsBacked: does not model browsers; the flow is tied to its callback by the cookie that equals the state, which is all the server sees.
- JSON: decoding a line and reading argument text are parameters that may fail. Token usage counters and HTTP errors of the AI provider are not described, nor is the Gemini provider.
- The assistant's tool registry and argument builders: each check's outcome is a parameter of the turn.
- SQL text, column types and the guards on which tables exist: tables are sequences and maps, ROUND is any nearest rounding, and an ORDER BY answer is any permutation that respects the order.
- The plan limits and RUT-label rules consulted before a customer is written, and reading, mapping and validating the rows of an imported file: their outcome is a parameter.
- The quote pipeline summary and the other analytics queries: counting rows by status and currency adds only easy members.
- Growth percentages, enum files, permission tables, PDF, email, webhooks delivery and the front end.

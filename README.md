# Installment scheduler of the billing tracker, in Dafny

The billing tracker ("Gestor de Cobranças") keeps client records with an
installment plan. Each record has a first due date (`vencimento`), a payment
type (`tipo_pagamento`: `"mensal"`, `"semanal"` or anything else, such as the
form's `"unica"`), the number of installments paid (`parcela_atual`) and the
contract length (`total_parcelas`). The scheduler in `src/App.js` does three
things:

- `calculateNextDueDate` computes the due date of the next unpaid
  installment. Monthly plans add calendar months, clamped to the end of
  shorter months. Weekly plans add seven days per paid installment. Any
  other plan keeps the first date. A record whose date is missing or does
  not parse has no next due date.
- The pending-charges list keeps the unfinished, dated records whose next
  due date is today or past. It tags each one `isOverdue` when that date is
  past and not today, and sorts overdue records first with a stable sort.
- The full list (`processedAllClients`) tags every record and forces the
  flag off for finished or undated records.

The model has five modules:

- `Wrappers`: `Option`.
- `Calendar`: proleptic Gregorian dates, and the two date-fns operations
  behind the source's `add` calls. `add` with `{ months }` delegates to
  `addMonths`, and `add` with `{ weeks }` delegates to `addDays` with seven
  days per week. An independent day count (`DayNumber`) checks `addDays`; `addMonths` is
  fixed by its month index and its day-of-month clamp.
- `IsoDate`: `YYYY-MM-DD` strings, the calendar-date complete representation
  in extended format of ISO 8601 (section 4.1.2.2). The parser comes with a
  formatter, and both round trips are proved.
- `Seqs`: `Array.prototype.filter` on sequences.
- `Scheduler`: the three parts of `src/App.js`.

date-fns `isToday`/`isPast` read the current instant. Here they are a
`today` parameter, and the comparisons are made between calendar days.

The sort is modelled as "the overdue entries, then the rest", each group
filtered in input order. A stable insertion sort driven by the source's
comparator, `(b.isOverdue ? 1 : 0) - (a.isOverdue ? 1 : 0)`, is proved to
give the same list on every input. `Array.prototype.sort` is stable, so
this is the result the source produces.

The code reads `vencimento`, `tipo_pagamento`, `parcela_atual` and
`total_parcelas` directly, with no fallback to other field names and no
defaults. An unrecognised payment type keeps the start date.

## Model

| member | source | states |
|---|---|---|
| `Calendar.AddMonths` | src/App.js:19 | The result is a valid date exactly `n` calendar months later. It keeps the day of the month unless the target month is shorter, in which case it is that month's last day. It never moves backwards, and adding 0 months changes nothing. |
| `Calendar.AddMonthsClampsToLeapFebruary` | src/App.js:19 | One month after 2024-01-31 is 2024-02-29. In the common year 2023 it is 2023-02-28. |
| `Calendar.NextDay` | src/App.js:21 | The next calendar day is a valid date whose day number is one more. |
| `Calendar.AddDays` | src/App.js:21 | Adding `n` days gives a valid date whose day number is exactly `n` larger. |
| `Calendar.AddDaysOrder` | src/App.js:21 | Adding 0 days changes nothing, and adding any positive number of days gives a strictly later date. |
| `Calendar.AddDaysCompose` | src/App.js:21 | Adding `a` days and then `b` days is the same as adding `a + b` days. |
| `Calendar.BeforeIffSmallerDayNumber` | src/App.js:58 | Calendar order agrees with day-count order on valid dates, and equal dates have equal day counts. So "today or past" is a comparison of calendar days. |
| `Calendar.YearLength` | src/App.js:21 | A leap year has 366 days and any other year 365, by the Gregorian rule. |
| `IsoDate.ParseIsoDate` | src/App.js:14-15 | A result exists only for a `DDDD-DD-DD` string. It is then a valid calendar date with a year from 0 to 9999. |
| `IsoDate.ParseFormatRoundTrip` | src/App.js:14 | Every date with a four-digit year parses back from its own text. |
| `IsoDate.FormatParseRoundTrip` | src/App.js:14 | A string that parses is exactly the text of the date it denotes. |
| `IsoDate.ParseIsoDateRejects` | src/App.js:13-15 | The empty string, 2023-02-29 and month 13 do not parse. 2024-02-29 does. |
| `Seqs.Filter` | src/App.js:53-59 | The kept elements are exactly the elements of the input that pass the test, and there are no more of them than input elements. |
| `Seqs.FilterConcat` | src/App.js:53-59 | Filtering a concatenation is concatenating the filtered parts, so filtering keeps input order. |
| `Scheduler.CalculateNextDueDate` | src/App.js:12-26 | The result is null exactly when the start date is missing, empty or does not parse. Otherwise it is a valid date. |
| `Scheduler.NextDueDateMonthly` | src/App.js:18-19 | Monthly: `parcela_atual` calendar months after the start, on the same day of the month or on the last day of a shorter month. |
| `Scheduler.NextDueDateWeekly` | src/App.js:20-21 | Weekly: exactly `7 * parcela_atual` days after the start. |
| `Scheduler.NextDueDateSinglePayment` | src/App.js:22-23 | Any other payment type: the start date, unchanged by any number of installments paid. |
| `Scheduler.NextDueDateFirstInstallment` | src/App.js:17-24 | With nothing paid, every payment type is due on the start date. |
| `Scheduler.NextDueDateNotBeforeStart` | src/App.js:17-25 | The next due date is never before the start date. |
| `Scheduler.IsDue` | src/App.js:54-58 | A due record has a start date, has installments left (not `OutOfSchedule`, the line-54 test), and has a next due date. |
| `Scheduler.IsOverdue` | src/App.js:62 | An overdue record has a next due date that is not today. An overdue record that is in schedule is also due. |
| `Scheduler.SelectDue` | src/App.js:53-59 | The filter keeps exactly the input records that are due, and no more records than the input has. |
| `Scheduler.OverdueFirst` | src/App.js:65 | The sort keeps the number of entries and is a permutation of its input, and no unflagged entry precedes a flagged one. |
| `Scheduler.ProcessClient` | src/App.js:112-117 | The entry holds the record unchanged. Its flag is set only for a record that is in schedule (not `OutOfSchedule`) and due. |
| `Scheduler.TagEntries` | src/App.js:60-64 | The map step keeps length, order and each record unchanged, and only adds the flag. |
| `Scheduler.DueClients` | src/App.js:52-67 | Every pending entry is an input record that has a start date and unpaid installments (not `OutOfSchedule`). The list is `SelectDue`, then `TagEntries`, then `OverdueFirst`. |
| `Scheduler.DueClientsMembership` | src/App.js:53-63 | An entry is pending exactly when its record is in the input and due, and it carries exactly the overdue flag that record should have. Both directions hold. |
| `Scheduler.DueClientsFlags` | src/App.js:57-62 | Every pending entry has a next due date on or before today. It is flagged overdue exactly when that date is before today, so an unflagged entry is due today. |
| `Scheduler.DueClientsOverdueFirst` | src/App.js:65 | No unflagged entry precedes a flagged one. |
| `Scheduler.DueClientsStable` | src/App.js:65 | Within each group the input order is kept, and the list is a permutation of the tagged records. |
| `Scheduler.StableSortIsOverdueFirst` | src/App.js:65 | A stable sort with the source's comparator gives exactly the overdue-first partition, on every input. |
| `Scheduler.ProcessedAllClients` | src/App.js:111-118 | The full list has the input's length and order, and each entry holds its input record unchanged. |
| `Scheduler.ProcessedAllMatchesDueList` | src/App.js:111-118 | Finished or undated records are never flagged. When both lists are computed for the same `today`, a record of the full list is flagged exactly when that record is flagged on the pending list. |
| `Scheduler.ProcessedAllOverdueInOrder` | src/App.js:111-118 | The flagged entries of the full list and of the pending list are the same records in the same order. |
| `Scheduler.MonthlyPlanExample` | src/App.js:12-68 | A monthly plan started 2024-01-15 with 2 of 12 paid is next due 2024-03-15. It is pending but not overdue that day, overdue on 2024-03-20, and not pending on 2024-03-14. |

## Left out

- Fetching, adding and marking clients as paid (`fetchCobrancas`, `handleAddClient`, `handleMarkAsPaid`) are left out. They are HTTP round trips to a configured server, with console logging, and contain no scheduling logic.
- The React state, effects and rendering are left out. The state setters only trigger the recomputation that the model states as functions.
- `src/ClientForm.js` is not part of this model. It holds form state and `parseFloat`/`parseInt` of the inputs.
- `src/DueClientsList.js` is not part of this model. It holds table rendering and currency formatting with `toLocaleString`.
- The total amount `valor * totalParcelas` is floating-point money and is not modelled.
- Time of day, time zones and daylight saving are left out. The current instant is the calendar-date parameter `today`. The source's `isPast` on a local-midnight date gives the same answer except at the exact instant of midnight, when `isToday` decides anyway.
- `IsoDate.ParseIsoDate`: accepts only `YYYY-MM-DD`. date-fns `parseISO` also reads other shapes as dates: `YYYY`, `YYYY-MM`, the basic format `YYYYMMDD`, six-digit signed years, week and ordinal dates, the two-digit century form (`20`), a date followed by a bare `T` or space, and date-times, with or without an offset and with a `T` or a space separator, among others. The model treats all of these as unparseable.
- `Scheduler.Client`: `parcela_atual` and `total_parcelas` are natural numbers. JavaScript's loose typing is not modelled, such as a string count, or the `undefined` that `handleAddClient` sends because the form never supplies `parcelas_pagas`.
- `Scheduler.ProcessClient`: when a dated but unfinished record's date does not parse, the source's flag is `null`, not `false`. The model uses `false`, which is what every reader of the flag sees, since it is only tested for truth.
- `Scheduler.Client`: fields other than the four the scheduler reads are carried as an uninterpreted string map, whatever their JSON types.
- `Calendar.Date`: the year is an unbounded integer. The finite range of JavaScript `Date` values, about 275 000 years each side of 1970, is not modelled.
- `Scheduler.ProcessedAllMatchesDueList`: relates the two lists for one `today`. The source computes them at different moments. The pending list is recomputed only when the client list changes (the effect depends on `allClients` alone). The full list is recomputed at every render. On a page left open past midnight, the full list can flag a record that has become overdue while the pending list still leaves it out. The model does not capture that staleness.
- `Scheduler.ProcessedAllOverdueInOrder`: same caveat as the line above. Both lists are taken at one `today`.

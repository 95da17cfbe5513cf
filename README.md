# Subscription manager: month grouping, installments, status and tab order

This project models the data-shaping rules of a small subscription-tracking
dashboard and proves properties about them. Each subscription record has:

- a name, an amount and a due date;
- an installment index and an installment count;
- a map from `"YYYY-MM"` keys to paid flags.

The dashboard does four things with records:

- It **groups** the records into tabs keyed `"MM/YYYY"` (`agruparPorMes`).
- It **expands** one form submission into one create request per installment, each due `i` months after the first by `setMonth`'s rule (`criarAssinaturasComParcelas`, gated by `handleNovaAssinatura`).
- It **derives** each record's status (pago, vencido or pendente) from the paid flag of the active tab's month and the current time.
- It **orders** the tab keys chronologically (`ordenarMesesComMesAtualCentralizado`).

Modules:

- `Wrappers`: `Option` and `Result`.
- `Text`: decimal digits, `padStart`, `split` and `join`.
- `Calendar`: proleptic Gregorian dates and a day count. It defines JavaScript's time-value order, and `AddMonths`, which is `setMonth` with its month carry and day-overflow normalisation.
- `MonthKeys`: the `"MM/YYYY"` and `"YYYY-MM"` keys.
- `Records`: the stored record.
- `GroupByMonth`: the grouping fold. It is a loop over a map, proved against a declarative `Grouped` map.
- `Installments`: the input gate, and the expansion loop writing to a `RecordStore` class. The store's `log` is the sequence of create requests it has stored.
- `Status`: the status derivation.
- `MonthTabs`: the tab ordering. It works on an array: an in-place insertion sort, `findIndex`, and the centring branch.

External inputs become parameters:

- JavaScript's `parseFloat` and `Number` on strings become function parameters returning a `JsNumber`, which is `NaN` or a real value.
- The current time `new Date()` becomes the parameter `hoje`.

## Model

| member | source | states |
|---|---|---|
| GroupByMonth.AgruparPorMes | src/utils/agruparPorMes.js:1-45 | The fold returns exactly `Grouped(assinaturas, KeyOf)`: one group per key that occurs, holding the records with that key in input order. The loop invariant is that the accumulator is the grouping of the prefix read so far. |
| GroupByMonth.KeyOf | src/utils/agruparPorMes.js:7-24 | A record has a key exactly when its due date is usable, and the key reads back as that date's month and year. |
| GroupByMonth.GroupBy | src/utils/agruparPorMes.js:2-44 | The `reduce` with a dictionary accumulator, for any key function, returns exactly the declarative grouping. A record without a key is skipped, and a missing bucket is created right before the push. |
| GroupByMonth.GroupedEmpty | src/utils/agruparPorMes.js:44 | The empty list groups to the empty map. |
| GroupByMonth.GroupedSnoc | src/utils/agruparPorMes.js:29-34 | Reading one more record appends it to its key's group, creating the group when the key is new; a record without a key leaves the map unchanged. |
| GroupByMonth.GroupedSnocKeyed | src/utils/agruparPorMes.js:29-34 | A record with key `k` extends the bucket for `k` by itself, starting from an empty bucket when `k` is new. All other buckets are unchanged. |
| GroupByMonth.GroupedSnocUnkeyed | src/utils/agruparPorMes.js:12 | A record without a key leaves the grouping unchanged. |
| GroupByMonth.BucketMembership | src/utils/agruparPorMes.js:12-34 | A record is in the bucket for `key` if and only if it is in the input and its key is `key`. |
| GroupByMonth.BucketEmptyIff | src/utils/agruparPorMes.js:29-34 | A bucket is empty if and only if no input record has its key. |
| GroupByMonth.BucketIsOrderedSelection | src/utils/agruparPorMes.js:2-34 | A group is the input restricted to the strictly increasing positions whose key is the group's key, so relative input order is kept. |
| GroupByMonth.SameKeyOneGroup | src/utils/agruparPorMes.js:18-34 | A non-empty list whose records all share one key groups to that single key mapped to the whole list. |
| GroupByMonth.GroupedTotal | src/utils/agruparPorMes.js:2-44 | The group sizes add up to the number of input records that have a key: nothing is duplicated or invented. |
| GroupByMonth.UndatedInNoGroup | src/utils/agruparPorMes.js:7-12 | A record whose date is missing or invalid is in no group. |
| GroupByMonth.DatedInExactlyOneGroup | src/utils/agruparPorMes.js:18-34 | A dated input record is in the group keyed by its zero-padded month, `/` and its year, and in no other group. |
| GroupByMonth.GroupMembersBelong | src/utils/agruparPorMes.js:12-34 | Every member of a group is a dated input record whose own key is the group's key. |
| GroupByMonth.GroupKeysWellFormed | src/utils/agruparPorMes.js:18-24 | Every key of the result parses as `MM/YYYY` with a month 01..12 and prints back to itself. |
| GroupByMonth.GroupsNonEmpty | src/utils/agruparPorMes.js:29-34 | Every group of the result is non-empty. |
| MonthKeys.MonthKey | src/utils/agruparPorMes.js:18-24 | The grouping key of a month is two digits, a `/` and the digits of the year. |
| MonthKeys.ToYearMonthKey | src/pages/Dashboard.jsx:262-263 | Split at `/` and padded, a key spelled the grouping's way becomes the `YYYY-MM` key of the (year, month) it parses to. |
| MonthKeys.MonthKeyParts | src/pages/Dashboard.jsx:262 | A key spelled the grouping's way splits into its two-digit month and its year, and padding the month again changes nothing. |
| MonthKeys.ParseMonthKeyRoundTrip | src/utils/agruparPorMes.js:18-24 | A grouping key parses back to the month and year it was built from. |
| MonthKeys.MonthKeyInjective | src/utils/agruparPorMes.js:18-24 | Distinct (month, year) pairs give distinct grouping keys. |
| MonthKeys.ToYearMonthKeyOfMonthKey | src/pages/Dashboard.jsx:262-263 | Converting the grouping key of (month, year) gives `YYYY-MM` with the year and the two-digit month. |
| MonthKeys.YearMonthKeyInjective | src/pages/Dashboard.jsx:262-263 | Distinct (year, month) pairs give distinct `YYYY-MM` keys. |
| MonthKeys.MarchKey | src/utils/agruparPorMes.js:18-24 | March 2025 is keyed `"03/2025"`. |
| MonthKeys.MarchConversion | src/pages/Dashboard.jsx:262-263 | `"03/2025"` converts to `"2025-03"`. |
| Text.ParseNatToString | src/utils/agruparPorMes.js:18-21 | The decimal spelling of a number reads back as that number. |
| Text.Unparse | src/utils/agruparPorMes.js:18 | A field of `w` digits is the zero-padded decimal spelling of the number it reads as. |
| Text.PadSnoc | src/utils/agruparPorMes.js:18 | Padding a string with one more character at the end pads the shorter string to one less. |
| Text.ZerosParse | src/utils/agruparPorMes.js:18 | A string of digits that reads as 0 is all zeros. |
| Text.ParseNatPadStart | src/utils/agruparPorMes.js:18 | Left-padding digits with zeros does not change the number they spell. |
| Text.JoinSplit | src/pages/Dashboard.jsx:117 | `split` on a separator loses nothing: joining the parts with the separator gives back the string. |
| Text.SplitPair | src/pages/Dashboard.jsx:262 | Splitting `a/b`, where neither part contains `/`, gives exactly `[a, b]`. |
| Calendar.DaysInMonth | src/pages/Dashboard.jsx:66 | Month lengths are 28..31; February has 29 days exactly in leap years; the other months have at least 30. |
| Calendar.AddMonths | src/pages/Dashboard.jsx:65-66 | `setMonth(getMonth() + i)` always yields a valid date. |
| Calendar.AddMonthsIsMakeDay | src/pages/Dashboard.jsx:65-66 | The shifted date's day number is the first day of the month `i` months later, plus the original day minus one. This is ECMAScript's MakeDay, so an overflowing day rolls into the next month. |
| Calendar.AddMonthsTarget | src/pages/Dashboard.jsx:66 | The month `i` months after a date's month is reached by carrying whole years out of the month count. |
| Calendar.MakeDayRollover | src/pages/Dashboard.jsx:66 | A day past the end of a month (which cannot be December) is that many days into the next month. |
| Calendar.AddMonthsMonths | src/pages/Dashboard.jsx:65-66 | The shifted date is `i` months later on the same day when that day exists; otherwise it is `i + 1` months later, on the original day minus the target month's length. |
| Calendar.AddMonthsKeepsEarlyDay | src/pages/Dashboard.jsx:65-66 | A day up to the 28th is kept, and the month advances by exactly `i`, carrying into the year. |
| Calendar.AddMonthsZero | src/pages/Dashboard.jsx:65-66 | Advancing a valid date by zero months leaves it unchanged. |
| Calendar.AddMonthsExamples | src/pages/Dashboard.jsx:65-66 | Examples: one month after 2024-01-31 is 2024-03-02. One month after 2025-01-31 is 2025-03-03. Three months after 2025-11-15 is 2026-02-15. One month after 2024-03-31 is 2024-05-01. |
| Calendar.DayIndexOrder | src/pages/Dashboard.jsx:272 | On valid dates, the day count is smaller exactly when the date is lexicographically earlier, and equal exactly when the dates are equal. |
| Calendar.Before | src/pages/Dashboard.jsx:272 | `a < b` on two `Date` objects; on the same day it compares the times of day. |
| Calendar.BeforeIsChronological | src/pages/Dashboard.jsx:272 | `dataVencimento < hoje` holds exactly when the due date is earlier, or is the same day at an earlier time. |
| Installments.OrZero | src/pages/Dashboard.jsx:92 | A JavaScript logical or with 0 keeps a non-zero number and turns `NaN` and zero into 0. |
| Installments.OrOne | src/pages/Dashboard.jsx:94-95 | A JavaScript logical or with 1 keeps a non-zero number, turns `NaN` and zero into 1, and is never zero. |
| Installments.Validate | src/pages/Dashboard.jsx:84-95 | The gate fails if and only if some field is empty. On success it copies uid, name and date, converts the amount with a logical or with 0, and converts each count with a logical or with 1: a count `Number` reads as `NaN` or 0 becomes 1, any other count is kept, so neither count is ever 0. |
| Installments.Expansion | src/pages/Dashboard.jsx:64-78 | The batch has `Iterations(quantidadeParcelas)` requests. Request `i` carries installment number `i + 1`. Every request has the submission's uid, name, amount and count, and is unpaid. |
| Installments.RecordStore.Create | src/services/firestore.js:13-20 | A create call that succeeds appends its request to the store's log. One that the store rejects leaves the log unchanged and reports the failure. |
| Installments.CriarAssinaturasComParcelas | src/pages/Dashboard.jsx:54-79 | The loop appends a prefix of `Expansion(s)` to the store's log, in order. It stops at the first rejected create call, which `await` rethrows, and the requests stored before that stay stored. It reports success exactly when the whole expansion is stored. |
| Installments.HandleNovaAssinatura | src/pages/Dashboard.jsx:81-96 | A form is accepted if and only if the gate succeeds. A rejected form stores nothing. An accepted one stores a prefix of its submission's expansion, and all of it exactly when every create call succeeds. |
| Installments.ZeroOrNaNCountIsOne | src/pages/Dashboard.jsx:95 | An accepted form whose count `Number` reads as `NaN` or 0 expands to exactly one request, installment 1 of a count of 1. |
| Installments.Iterations | src/pages/Dashboard.jsx:64 | The number of rounds of `for (let i = 0; i < q; i++)`: none when `q` is not positive, and otherwise the ceiling of `q`, the least whole number at least `q`. |
| Installments.IterationsExact | src/pages/Dashboard.jsx:64 | `i < quantidadeParcelas` holds exactly for the `i` below the ceiling of a positive count, and for no `i` when the count is not positive. |
| Installments.ExpansionOfWholeCount | src/pages/Dashboard.jsx:64-76 | A whole count `K >= 1` gives exactly `K` requests, numbered 1 to `K`. |
| Installments.ExpansionIndexBounds | src/pages/Dashboard.jsx:75-76 | Every installment number is at least 1 and below the count plus one. |
| Installments.ExpansionDueDates | src/pages/Dashboard.jsx:62-66 | Request `i` is due at local midnight of the entered date advanced by `i` months; an unparsable date gives an invalid due date on every request. |
| Installments.ExpansionMonthlySteps | src/pages/Dashboard.jsx:62-66 | When the first due day is at most the 28th, consecutive requests are due exactly one calendar month apart, carrying past December. |
| Installments.ExpansionIgnoresParcelaAtual | src/pages/Dashboard.jsx:59-75 | The `parcelaAtual` argument has no effect on the requests. |
| Installments.ParseDateInput | src/pages/Dashboard.jsx:62 | `new Date(data + "T00:00:00")` gives a date only for a ten-character value with `-` at positions 4 and 7, and that date is valid. |
| Installments.ParseThenFormat | src/pages/Dashboard.jsx:62 | A value that parses is exactly the `YYYY-MM-DD` spelling of the date it parses to, so no other string is accepted. With `ParseFormatDateInput`, parsing and formatting are inverse to each other. |
| Installments.BaseDue | src/pages/Dashboard.jsx:62 | The first due date is local midnight of the entered date, or an invalid date when the value does not parse. |
| Installments.DueAfter | src/pages/Dashboard.jsx:65-66 | Copying the base and calling `setMonth(getMonth() + i)` keeps the time of day and gives a valid date. An invalid base stays invalid, and `i = 0` leaves a valid base unchanged. |
| Installments.ParseFormatDateInput | src/pages/Dashboard.jsx:62 | Every valid date with a four-digit year reads back from its `YYYY-MM-DD` date-input value. |
| Installments.ParseDateInputExample | src/pages/Dashboard.jsx:62 | `"2025-01-15"` parses to 15 January 2025. |
| Installments.ExampleFields | src/pages/Dashboard.jsx:62 | The fields of `"2025-01-15"` read as 2025, 1 and 15. |
| Installments.NetflixExample | src/pages/Dashboard.jsx:54-95 | A form with count `"3"` is accepted. Its expansion is three requests due 15 January, 15 February and 15 March 2025, numbered 1, 2 and 3. |
| Installments.ThreeFromJanuary15 | src/pages/Dashboard.jsx:62-78 | Three installments from `"2025-01-15"` fall due on 15 January, 15 February and 15 March 2025, numbered 1 to 3. |
| Installments.ExpansionOfThree | src/pages/Dashboard.jsx:62-78 | A count of 3 gives three requests, due zero, one and two months after the entered date, numbered 1 to 3. |
| Installments.JanuaryShifts | src/pages/Dashboard.jsx:65-66 | 15 January 2025 advanced by 0, 1 and 2 months is 15 January, 15 February and 15 March 2025. |
| Status.EstaPaga | src/pages/Dashboard.jsx:264 | A month with no entry in the payment map reads as unpaid; otherwise the entry's flag is read. |
| Status.DeriveStatus | src/pages/Dashboard.jsx:261-274 | The status is pago exactly when the paid flag of the tab's `YYYY-MM` key is set. It is vencido exactly when that flag is not set and the due instant is before `hoje`. It is pendente exactly when neither holds. |
| Status.StatusConsultsOwnMonth | src/pages/Dashboard.jsx:261-264 | On a tab of the grouping, every listed record is dated, and the flag consulted is the one for that record's own due year and month. |
| Status.PaymentFlagsDoNotLeak | src/pages/Dashboard.jsx:261-264 | Two different tabs of the grouping consult different `YYYY-MM` keys. |
| MonthTabs.TabOf | src/pages/Dashboard.jsx:116-120 | A well-formed key maps to a tab with that key, dated the first day of the key's own month and year, which is a valid date. |
| MonthTabs.TabTimeOrder | src/pages/Dashboard.jsx:123 | The comparator `a.data - b.data` orders two tabs exactly as their keys' (year, month) order. |
| MonthTabs.SortTabs | src/pages/Dashboard.jsx:123 | The in-place sort leaves the tabs in ascending time order, as a permutation of the input. |
| MonthTabs.SortByKey | src/pages/Dashboard.jsx:123 | Sorting an array in place by a numeric key leaves it ascending by that key, as a permutation of its old contents. |
| MonthTabs.InsertByKey | src/pages/Dashboard.jsx:123 | Sinking one element into a sorted prefix extends the sorted prefix by one. It rearranges only that prefix (its multiset is kept) and leaves every later cell unchanged. |
| MonthTabs.Sink | src/pages/Dashboard.jsx:123 | The swapping loop of the insertion leaves the prefix through `i` sorted and the array a permutation, and touches no later cell. |
| MonthTabs.Swap | src/pages/Dashboard.jsx:123 | Exchanges two cells and changes no other cell. |
| MonthTabs.FindCurrentMonth | src/pages/Dashboard.jsx:125-130 | `findIndex` returns -1 exactly when no tab is in the month and year of `hoje`; otherwise it returns the first such tab. |
| MonthTabs.Recentred | src/pages/Dashboard.jsx:134-137 | Prefix, current tab and suffix rebuild exactly the sorted list, so the centring branch returns the same as the plain one. |
| MonthTabs.IsCurrentMonth | src/pages/Dashboard.jsx:127-129 | A tab built from a well-formed key is current exactly when its key names the month and year of `hoje`. |
| MonthTabs.MesListPermutation | src/pages/Dashboard.jsx:137-141 | Rearranging tabs rearranges their keys in the same way. |
| MonthTabs.ProjectPermutation | src/pages/Dashboard.jsx:137-141 | Rearranging a sequence rearranges its `.map` image in the same way. |
| MonthTabs.OrdenarMesesComMesAtualCentralizado | src/pages/Dashboard.jsx:115-142 | The result is a permutation of the input keys, every one well formed, in ascending (year, month) order, on both branches. |
| MonthTabs.SortedTabsKeys | src/pages/Dashboard.jsx:116-141 | The keys of the tabs built from the input keys, once sorted by time, are a rearrangement of the input keys in ascending (year, month) order. |
| MonthTabs.SortedPairKeys | src/pages/Dashboard.jsx:123 | Two tabs built from keys and sorted by time have their keys in (year, month) order. |
| MonthTabs.AscendingArrangementUnique | src/pages/Dashboard.jsx:133-141 | Two arrangements of the same collection that are ascending under a reflexive, antisymmetric order are equal. |
| MonthTabs.KeyOrderIsPartialOrder | src/pages/Dashboard.jsx:123 | On keys spelled the way the grouping spells them, the (year, month) order is reflexive and antisymmetric. |
| MonthTabs.KeyNotAfterOfKeys | src/pages/Dashboard.jsx:123 | The order on two grouping keys is exactly (year, month) order. |
| MonthTabs.SortedArrangementUnique | src/pages/Dashboard.jsx:115-142 | Any two ascending arrangements of the same grouping keys are equal, so the tab order does not depend on `hoje` or on the branch taken. |
| MonthTabs.OrderingExample | src/pages/Dashboard.jsx:115-142 | For any year, the tabs 03, 01, 02 come out as 01, 02, 03. |
| MonthTabs.FirstQuarterSorted | src/pages/Dashboard.jsx:123 | The keys 01/y, 02/y and 03/y, in that order, are ascending. |
| MonthTabs.FirstQuarterCanonical | src/utils/agruparPorMes.js:18-24 | The keys 01/y, 02/y and 03/y are spelled the way the grouping spells keys. |

## Left out

- Firestore calls (`addDoc`, `getDocs`, `deleteDoc`, `updateDoc`): the store is modelled only as the log of create requests from the expansion. A create call may fail, and which calls fail is left to the store. The error that `handleNovaAssinatura` then rethrows to the browser, skipping the field reset and reload, is presentation.
- Authentication, routing and the login and register pages: they are foreign library calls and UI.
- JSX rendering, React state and effects, and the field resets and reload after a submission: these are presentation.
- The first-tab selection `Object.keys(agrupado)[0]`: `Object.keys` lists keys that are not array indices in insertion order, and `MM/YYYY` keys are not indices. So the first tab is the month of the first dated record in the list the store returned. The order of that list is the store's, which is outside this model.
- Deleting records and toggling a month's paid flag (`handleDeletar`, `handleTogglePagoPorMes`): they are store calls.
- Month-name formatting (lines 238-241), and `toLocaleDateString` of due dates: these are locale formatting.
- The currency total (lines 335-337) and `toFixed`: these are floating point. Amounts are real numbers copied through.
- `alert`, `console.error`, and the `try`/`catch` around each grouped item: an item whose processing throws is only logged and skipped. The model has no throwing item, and a missing or invalid date is skipped as the code does.
- `criadaEm: new Date()` on each create request: this is a clock read, and the request has no such field.
- Timezones: expansion works in local time and grouping in UTC. One calendar frame stands for both, and time of day is kept as milliseconds within the day.
- JavaScript's `Infinity` and `-0`: `JsNumber` is `NaN` or a finite real. This matters for the count: when `Number(quantidadeParcelas)` is `Infinity`, the loop `i < quantidadeParcelas` only ends when a create call fails. The model's expansion loop terminates because every count is finite.
- Installments.ParseDateInput: accepts exactly `YYYY-MM-DD` with a day the month has. JavaScript engines differ on the leniency of out-of-range ISO days, and that leniency is not modelled.
- MonthTabs.TabOf: `new Date("MM 01, YYYY")` is the engine's implementation-defined date parser. It is modelled for well-formed keys only (the keys the grouping produces), so `OrdenarMesesComMesAtualCentralizado` requires every key to parse. Two-digit years and malformed keys are not modelled.
- MonthTabs.SortTabs: no contract states stability. `Array.prototype.sort` is stable since ECMAScript 2019, and this insertion sort is stable too: it moves an element only past strictly later ones. Ties come from equal time values, which only keys outside the grouping's spelling produce (`"3/2025"` and `"03/2025"`). The grouping's keys are canonical and distinct, so none of its tabs tie, and `SortedArrangementUnique` shows their order is fully determined.
- Installments.Expansion: the installment number is `i + 1`, independent of the submitted `parcelaAtual`, as the code does: installment numbers start at 1 whatever `parcelaAtual` says. A negative or zero count gives no request, and a fractional count `q > 0` gives `ceil(q)` requests, as the loop condition `i < q` does.

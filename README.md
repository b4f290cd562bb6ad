# Payment tracker: half-month periods and the cycle ledger

A Dafny model of the logic of a single-user debt-payment tracker (`src/App.tsx`).
The user enters a debt once. After that they record successive half-month
"payment cycles". Each cycle holds the money received, itemised expenses and a
debt payment. The app lowers the debt by each payment and keeps the history.

The model has four parts:

- `Calendar` covers `getCycleRangeAndNext` and the initial period start. Dates
  are `(year, month 0..11, day)` triples under the Gregorian leap-year rule.
  `MakeDate` models the JavaScript `new Date(y, m, d)` constructor, which
  normalises out-of-range months and days. Through it, the two idioms the source
  relies on are proved: `new Date(y, m + 1, 0)` gives the last day of month `m`,
  and `new Date(y, m + 1, 1)` gives the 1st of the next month, across a year end.
  A period label is the value `Range(firstDay, lastDay, month)`, not a locale
  string.
- `Cycles` covers the values of the cycle form:
  - the expense rows as they are edited;
  - the `reduce` fold of their amounts;
  - free money;
  - the two refusals of a submission;
  - the construction of the recorded cycle;
  - the `map` and `filter` behind the row edits.
- `Tracker.App` is the App component's state: `debt`, `cycles` and
  `nextCycleStart`, with `SubmitDebt` (`handleDebtSubmit`) and `AddCycle`
  (`addCycle`). Its invariant `Valid()` says two things:
  - the next start is a real date on the 1st or the 16th;
  - the debt equals the amount last set, less every payment recorded since.
- `CycleForm.PaymentCycleForm` is the form component. It holds the received
  money, the debt payment and the expense rows. It has the three row edits, and
  `Submit` (`handleSubmit`), which hands the cycle to `App.AddCycle`.

Money is counted in whole cents (`int`). A numeric field is an `Option<int>`.
`None` is a field whose text does not parse. The source reads such a field,
like a parsed 0, as 0 (`parseFloat(x) || 0`): that is `Amount`.

Points where the source is not consistent with itself, and what the model does:

- **Day 15.** The source's own label text `1-15` (src/App.tsx:28, 36) and the
  `<= 15` test of `initialCycleStart` (src/App.tsx:55) put the 15th in the first
  half. But line 35 of `getCycleRangeAndNext` tests `day < 15`, so it labels a
  15th `16-<lastDay>` and gives it the 1st of the next month as the next start.
  The model follows each line as written. `LabelContainsDate` shows that the
  15th is the only date outside its own label. Inside the app the quirk cannot
  be reached, because `getCycleRangeAndNext` only receives `nextCycleStart`, and
  `App.Valid()` keeps that on a 1st or a 16th (`IsPeriodStart`). The constructor
  sets it from `InitialCycleStart`, whose ensures puts it on a period start.
  `AddCycle` replaces it with `CycleRangeAndNext(...).nextStart`, whose ensures
  also puts it on a period start.
- **Negative amounts.** The code does not reject negative amounts: there is no
  such check in src/App.tsx:202-220. The model accepts any integer.
- **At least one expense row.** An empty expense list cannot be submitted, because the
  form always keeps its first row. A cycle "without expenses" is one row with
  amount 0.

## Model

| member | source | states |
|---|---|---|
| Calendar.DaysInMonth | src/App.tsx:31 | a month has between 28 and 31 days under the Gregorian rule |
| Calendar.NextDay | src/App.tsx:30-33 | the following calendar day is a real date and strictly later |
| Calendar.NextDayIsImmediate | src/App.tsx:30-33 | no real date lies strictly between a date and the day after it, so the next day is the immediate successor |
| Calendar.MakeDate | src/App.tsx:29 | `new Date(y, m, d)` always yields a real date, and leaves a real date unchanged |
| Calendar.MakeDateDayZero | src/App.tsx:31 | `new Date(y, m + 1, 0)` is the last day of month `m` |
| Calendar.MakeDateNextMonth | src/App.tsx:33 | `new Date(y, m + 1, 1)` is the 1st of the next month; December rolls over to January of year + 1 |
| Calendar.FirstHalf | src/App.tsx:28-29 | the first-half branch labels 1-15 of the month and gives the 16th of the same month as the next start |
| Calendar.SecondHalf | src/App.tsx:31-33 | the second-half branch labels 16 to the length of the month and gives the 1st of the next month as the next start, December rolling into January of year + 1 |
| Calendar.CycleRangeAndNext | src/App.tsx:17-45 | the next start is a real date, falls on the 1st or the 16th, is strictly after the input, and the label names the input's month |
| Calendar.FirstHalfOfMonth | src/App.tsx:27-29 | a day before the 15th (day 1 included) gets label 1-15 and next start on the 16th of the same month |
| Calendar.SecondHalfOfMonth | src/App.tsx:30-42 | a day from the 15th on (day 15 and 16 included) gets label 16-<days in month> and next start on the 1st of the next month, December rolling into January of year + 1 |
| Calendar.SecondHalfLastDay | src/App.tsx:39 | the last day of a second-half label is 29 for a leap February, 28 for any other February, 30 for April, June, September, November, 31 otherwise |
| Calendar.PeriodEndsBeforeNextStart | src/App.tsx:27-43 | the label's last day lies in the month, and the next start is the calendar day after it, so consecutive periods leave no gap |
| Calendar.LabelContainsDate | src/App.tsx:35-41 | a date lies inside its own label if and only if it is not the 15th |
| Calendar.PeriodStartsAlternate | src/App.tsx:27-33 | on a 1st or a 16th the label begins on that day; the 1st is followed by the 16th of the same month, and the 16th by the 1st of the next month |
| Calendar.TwoStepsOneMonth | src/App.tsx:78 | two advances from the 1st of a month reach the 1st of the following month |
| Calendar.InitialCycleStart | src/App.tsx:53-57 | the initial start is in today's month, falls on the 1st exactly when today is on or before the 15th (else on the 16th), and is not after today |
| Cycles.Recorded | src/App.tsx:226-229 | the stored expenses are the rows in order, each description kept and each amount read with the `|| 0` fallback |
| Cycles.Amount | src/App.tsx:202-204 | a field that parses yields its number; one that does not yields 0 |
| Cycles.FoldAmounts | src/App.tsx:203-206 | the reduce, started from any accumulator, adds exactly the sum of the amounts the cycle records |
| Cycles.TotalExpenses | src/App.tsx:203-206 | total expenses equals the sum of the amounts that the recorded cycle stores |
| Cycles.FreeMoney | src/App.tsx:207 | free money is the received money less the sum of the amounts the cycle records |
| Cycles.RemainingFreeMoney | src/App.tsx:139 | the remaining free money shown for a cycle is not negative exactly when its payment does not exceed its free money, and adding the payment back gives the free money |
| Cycles.Edited | src/App.tsx:191 | the chosen field takes the new value and the other field is kept |
| Cycles.PrepareCycle | src/App.tsx:209-233 | refused with ExpensesExceedIncome if and only if the expenses exceed the money received; refused with DebtPaymentExceedsFreeMoney if and only if they do not, but the payment exceeds free money; otherwise the cycle stores the received money, the rows' expenses, the payment, free money equal to received minus the sum of its expenses, non-negative remaining free money, and the label of the current period |
| Cycles.UpdatedRows | src/App.tsx:185-194 | the list keeps its length; every other row is unchanged; at the index only the chosen field takes the new value; an index outside the list changes nothing |
| Cycles.RowsWithout | src/App.tsx:198 | the filter deletes exactly the row at the index and keeps the rest in order; an index outside the list changes nothing |
| Tracker.AcceptDebt | src/App.tsx:63-71 | a blank entry is ignored; a debt is accepted if and only if it parses to a number greater than zero, and then it is that number |
| Tracker.TotalPaymentsAppend | src/App.tsx:77 | the payments of two consecutive stretches of the history add up to the payments of both |
| Tracker.App.constructor | src/App.tsx:48-58 | no debt, no cycles, and the next start is the initial start for today |
| Tracker.App.SubmitDebt | src/App.tsx:60-73 | the debt becomes the accepted amount; a refused or blank entry changes nothing; the history and next start are untouched; an accepted amount becomes the base from which later payments are counted |
| Tracker.App.AddCycle | src/App.tsx:75-79 | the cycle is appended with earlier entries kept; the debt drops by exactly its payment, with no floor (a debt never set becomes 0); the next start advances by one period; the base amount and the point from which payments are counted are kept (or, for a debt never set, restart at 0 after this cycle), so the debt still equals the amount last set less all payments since, and the next start stays on a 1st or a 16th |
| Tracker.EnterDebtAndRecord | src/App.tsx:60-79 | after a debt is entered and a sequence of cycles is recorded one by one, the history has grown by exactly those cycles in order, and the debt is the amount entered less the sum of their payments |
| CycleForm.PaymentCycleForm.constructor | src/App.tsx:174-179 | empty fields and a single empty expense row |
| CycleForm.PaymentCycleForm.FreeMoneyAvailable | src/App.tsx:202-207 | the free money shown is the received money less the sum of the amounts the rows would record |
| CycleForm.PaymentCycleForm.AddExpenseRow | src/App.tsx:181-183 | exactly one empty row is appended; nothing else changes |
| CycleForm.PaymentCycleForm.UpdateExpenseRow | src/App.tsx:185-194 | the rows become the mapped update of the old rows; the other fields are unchanged |
| CycleForm.PaymentCycleForm.RemoveExpenseRow | src/App.tsx:196-200 | index 0 is a no-op; any other index in the list deletes exactly that row, keeping order; the first row always survives, so the list is never empty |
| CycleForm.PaymentCycleForm.Submit | src/App.tsx:209-241 | the result is the checked cycle for the App's current next start; on a refusal neither the form nor the App changes in any field; on success the cycle is appended, the debt drops by its payment, the next start advances, the form is cleared, and a debt already set keeps its base, so the App's debt stays the amount last set less all payments since |
| Cycles.FirstHalfCycle | src/App.tsx:209-233 | 500.00 received with 200.00 rent and 100.00 paid on the 1st of any month records free money 300.00 under label 1-15 of that month |
| Cycles.SecondHalfCycle | src/App.tsx:209-233 | 400.00 received with a zero expense and 50.00 paid on the 16th of any 31-day month records free money 400.00 under label 16-31 of that month |
| Cycles.ExpensesOverIncome | src/App.tsx:213-216 | 150.00 of expenses against 100.00 received is refused as ExpensesExceedIncome in any period |

## Left out

- Rendering, dialogs and hook plumbing (`showDebtDialog`, `showCycleDialog`, `onClose`, JSX) are UI and are not modelled. The one-time debt dialog is not modelled either: `SubmitDebt` may be called again, and `Valid()` then counts payments from the new amount.
- Text parsing with `parseFloat` is not modelled. A parsed field is `Some(n)` and an unparseable one is `None`.
- Floating-point money and IEEE rounding are not modelled. Amounts are whole cents.
- Locale formatting of month names and numbers is not modelled. A label holds the month index.
- The wall clock (`new Date()`) is not read. `today` is a parameter of the `App` constructor.
- `alert` is not modelled. It becomes the `InvalidDebtAmount` outcome and the `Failure` results of `Submit`.
- React's batching of state updates and stale closures in `setCycles([...cycles, cycle])` are not modelled. Each transition in the model is applied at once.
- Calendar.MakeDate: does not model the JavaScript rule that maps a year argument of 0 to 99 to 1900 to 1999. It also leaves out time of day and daylight-saving shifts. The source only passes years taken from the clock.
- The display of the period label before submission (src/App.tsx:243, 249) is the same `CycleRangeAndNext` call, so it is not modelled separately.

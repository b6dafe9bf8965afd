# Budget Buddy borrowing ledger — a Dafny model

Budget Buddy is a personal finance tracker. Its one piece with real behaviour
is the borrowing/lending ledger. A user records money they **borrowed** (they
owe the counterparty) or **lent** (the counterparty owes them), pays it down in
parts, and watches entries go overdue. This project models that ledger as
immutable Dafny values and proves properties of it. It also models the period
filter and the column arithmetic of the expense-records report.

| file | module | models |
|---|---|---|
| `wrappers.dfy` | `Wrappers` | `Option` (JSON null/undefined) and `Result` |
| `seqs.dfy` | `Seqs` | order-preserving `Filter`, `Sum`, subsequence, duplicate-freedom |
| `borrowing_schema.dfy` | `BorrowingSchema` | the record, its enums, the `trim` setter, what the validators enforce |
| `borrowing_controller.dfy` | `BorrowingController` | create, list, update (payment / status / due date), delete, and histories of requests |
| `borrowing_view.dfy` | `BorrowingView` | overdue detection, days and severity, summary cards, list filters, pagination |
| `borrowing_forms.dfy` | `BorrowingForms` | the request bodies the page's forms and buttons send, and what the server stores from them |
| `expense_records.dfy` | `ExpenseRecords` | month/year filter, category colour, report totals, column widths and positions |

Modelling choices:
- Money is an integer in the smallest currency unit. Time is an integer count of milliseconds. Ids and user ids are naturals.
- The store is a map from id to record, plus an allocator `nextId` that plays the part of the database's fresh ids. `Valid` is the store invariant: each record sits under its own id, passes the schema validators, and has `0 <= remaining <= amount`. `ReplayPreservesValid` proves that every sequence of requests keeps it, starting from any valid store (for example the empty one).
- Every operation returns either a new store or an HTTP error (404, 400 or 500). An error carries no store, so the caller's store is unchanged.
- The current time is always an explicit parameter `now`. So is `new Date(text)` (`parseDate`). It gives either an instant or an Invalid Date, and the schema's Date cast rejects an Invalid Date with 500 on create and on update.
- The status/balance mismatch is kept on purpose. A manual status change never touches `remaining`, so a record can be `paid` while it still has a balance (`StatusPatchKeepsBalance`, `SettlementScenario`).

Behaviour a reader might not expect, modelled as the code does it:
- A create that fails validation is answered with 500, not 400. The handler's catch-all turns every thrown error into 500.
- A payment of 0, or a payment that is not a number, is not rejected. The payment branch is skipped, and the record is only re-saved (`ZeroPaymentIgnored`).
- On a payment, the record is looked up before the sign of the amount is checked. So a negative payment on a missing id is 404, not 400.
- `reminder.daysBefore || 3` turns an explicit 0 into 3. Quick-add sends 0, so quick-add entries are stored with 3 (`QuickAddStored`).
- Nothing in the code computes a "reminder is due" window. The reminder fields are only stored, so no such predicate is modelled.

## Model

| member | source | states |
|---|---|---|
| BorrowingSchema.ParseDirection | server/models/Borrowing.js:9-13 | `type` accepts exactly `borrowed` and `lent`, and parsing inverts naming |
| BorrowingSchema.ParseStatus | server/models/Borrowing.js:57-61 | `status` accepts exactly `pending`, `partial` and `paid`, and parsing inverts naming |
| BorrowingSchema.Trim | server/models/Borrowing.js:14-25 | the trim setter returns the slice left after removing JavaScript white space at both ends; the result has none left at either end |
| BorrowingSchema.TrimIdempotent | server/models/Borrowing.js:41-45 | trimming a trimmed string changes nothing |
| BorrowingController.RequestedDaysBefore | server/controller/borrowingController.js:39 | the stored `daysBefore` is never 0; a non-zero value in the body is stored as sent, and anything else becomes 3 |
| BorrowingController.AddBorrowing | server/controller/borrowingController.js:22-52 | creation succeeds exactly for admissible bodies (valid type, non-blank name, amount a number >= 0, a due date that is absent or a valid date, daysBefore >= 0), otherwise 500; the new record has a fresh id and belongs to the caller; the direction, trimmed name, trimmed contact and notes when sent, due date and reminder settings are stored as the body gave them; `remaining = amount`, status `pending`, both timestamps `now`; it is the only change to the store |
| BorrowingController.CreateDefaults | server/controller/borrowingController.js:27-41 | a missing contact or notes is stored as `''`, a missing due date as null, a missing reminder as disabled with 3 days, an explicit 0 days as 3; the name is stored trimmed |
| BorrowingController.AddPreservesValid | server/models/Borrowing.js:26-36 | creating keeps every record schema-valid with `0 <= remaining <= amount`, and the new id was unused |
| BorrowingController.SortNewestFirst | server/controller/borrowingController.js:59 | the result is ordered by `createdAt` descending and is a permutation of the input |
| BorrowingController.GetBorrowings | server/controller/borrowingController.js:56-61 | the listing holds exactly the caller's records, each once and as stored, newest first |
| BorrowingController.Settle | server/controller/borrowingController.js:82-91 | a positive payment leaves a balance >= 0 and never above the old one; the balance is 0 exactly when the payment covers it, otherwise it drops by the payment; the status is `paid` exactly at 0 and is never `pending` |
| BorrowingController.UpdateBorrowing | server/controller/borrowingController.js:69-103 | succeeds exactly on the caller's own record with a castable body (valid date, known status unless paying) and no negative payment; otherwise 404 for an absent or foreign id, 400 for a negative payment, 500 for an Invalid Date or unknown status; on success only `remaining`, `status`, `dueDate` and `updatedAt` change, on that record alone; a sent due date is stored; without a payment the balance is untouched and the status is the one named |
| BorrowingController.PaymentSettles | server/controller/borrowingController.js:76-93 | a positive payment on one's own record succeeds unless the body also carries an Invalid Date; the balance is clamped at 0 (overpayment absorbed) and never rises; the status is `paid` iff the balance is 0 and `partial` iff it is positive, whatever status the body sent |
| BorrowingController.NegativePaymentRejected | server/controller/borrowingController.js:82-85 | a negative payment on the caller's own record is 400 |
| BorrowingController.ZeroPaymentIgnored | server/controller/borrowingController.js:76 | a zero or non-numeric payment changes nothing but `updatedAt` and raises no error |
| BorrowingController.StatusPatchKeepsBalance | server/controller/borrowingController.js:95-99 | a status-only patch sets the status and leaves the balance alone |
| BorrowingController.DueDatePatchSetsDueDate | server/controller/borrowingController.js:95-97 | a due-date-only patch sets or clears the due date and nothing else; an Invalid Date is 500 |
| BorrowingController.UpdatePreservesValid | server/controller/borrowingController.js:87-91 | every modelled update keeps the store valid and never raises the record's balance |
| BorrowingController.DeleteBorrowing | server/controller/borrowingController.js:116-127 | delete succeeds exactly on the caller's own record, removing that id and nothing else; otherwise 404 |
| BorrowingController.DeleteTwiceNotFound | server/controller/borrowingController.js:121-125 | a second delete of the same id is 404 |
| BorrowingController.DeletePreservesValid | server/controller/borrowingController.js:121 | deleting keeps every remaining record valid |
| BorrowingController.ReplayPreservesValid | server/controller/borrowingController.js:22-132 | after any sequence of create, update and delete requests, every record is schema-valid with `0 <= remaining <= amount` |
| BorrowingController.ReplayNeverRaisesBalance | server/controller/borrowingController.js:87-90 | over any sequence of requests, a record that survives never has a larger balance than it started with |
| BorrowingController.SettlementScenario | server/controller/borrowingController.js:76-103 | worked history: 1000 created, 400 paid gives 600 `partial`, 600 or 1500 more gives 0 `paid`, marking `paid` by hand keeps 600, another user gets 404 |
| BorrowingView.CeilDiv | client/src/component/Borrowing.jsx:89 | `Math.ceil(a / b)` is the least integer whose multiple of `b` reaches `a` |
| BorrowingView.OverdueDays | client/src/component/Borrowing.jsx:84-90 | 0 without a due date or once paid; otherwise the whole days past due, partial days rounded up, not clamped |
| BorrowingView.IsOverdue | client/src/component/Borrowing.jsx:80-82 | the overdue flag (due date set, passed strictly, not paid) holds exactly when the day count is at least 1 |
| BorrowingView.OverdueDaysSign | client/src/component/Borrowing.jsx:80-90 | an overdue entry is at least one day overdue; any other entry counts at most 0 days |
| BorrowingView.SeverityOfDays | client/src/component/Borrowing.jsx:92-98 | `normal` exactly for <= 0 days, `mild` for 1-7, `moderate` for 8-30, `severe` above 30 |
| BorrowingView.SeverityMonotone | client/src/component/Borrowing.jsx:92-98 | more days never give a milder band |
| BorrowingView.OverdueSeverity | client/src/component/Borrowing.jsx:80-98 | the severity is not `normal` exactly when the entry is overdue |
| BorrowingView.SeverityMonotoneInTime | client/src/component/Borrowing.jsx:84-98 | as `now` grows, overdue days and severity never decrease |
| BorrowingView.TenDaysLateIsModerate | client/src/component/Borrowing.jsx:80-98 | a `partial` entry 10 days past due is overdue, 10 days, `moderate`; 1 ms late already counts one day |
| BorrowingView.FilteredItems | client/src/component/Borrowing.jsx:108-119 | each filter's list is an order-preserving subsequence holding every matching item as many times as the input does and nothing else; "all" keeps every item; "overdue" uses the overdue flag |
| BorrowingView.OwedFiltersPartition | client/src/component/Borrowing.jsx:110-113 | the "owed by me" and "owed to me" lists together are as long as the whole list, so with their membership clauses each item is in exactly one |
| BorrowingView.Outstanding | client/src/component/Borrowing.jsx:101 | `remaining ?? amount ?? 0`: a present balance (0 included) wins, then the amount, then 0 |
| BorrowingView.Summarize | client/src/component/Borrowing.jsx:100-106 | `owedByMe` is the outstanding sum of the "owed by me" list, `owedToMe` that of the "owed to me" list, `overdueCount` and `overdueAmount` the length and sum of the "overdue" list; `total` is the item count; the two owed sums add up to the whole outstanding sum; with non-negative balances all sums are >= 0 and the overdue amount is at most their total |
| BorrowingView.SummaryFiltersAreListFilters | client/src/component/Borrowing.jsx:100-119 | the summary's own `type` and `isOverdue` filters select the same lists as the filter buttons |
| BorrowingView.ListedSummaryNonNegative | client/src/component/Borrowing.jsx:100-106 | for a listing from a valid store, `remaining ?? amount ?? 0` is the stored balance and every summary total is >= 0 |
| BorrowingView.TotalPages | client/src/component/Borrowing.jsx:128 | the page count is 1 for an empty list; otherwise it is the fewest pages of 6 that hold the list |
| BorrowingView.Page | client/src/component/Borrowing.jsx:129 | a page holds at most 6 items, taken in order from offset `(page - 1) * 6` |
| BorrowingView.PagesReassemble | client/src/component/Borrowing.jsx:122-129 | pages 1 to `totalPages` laid end to end are the filtered list |
| BorrowingView.PrevPage | client/src/component/Borrowing.jsx:918 | the previous-page button goes to `page - 1` above page 1 and stays at 1 otherwise |
| BorrowingView.NextPage | client/src/component/Borrowing.jsx:941 | the next-page button goes to `page + 1` below the last page and stays at the last page otherwise |
| BorrowingView.PageButtonsStayInRange | client/src/component/Borrowing.jsx:918-942 | from a page in `[1, totalPages]`, both buttons stay in that range |
| BorrowingView.ShowingLabelCountsPage | client/src/component/Borrowing.jsx:915 | the "Showing a - b" label spans exactly the items on the current page |
| BorrowingForms.NullIfEmpty | client/src/component/Borrowing.jsx:209 | an empty input is sent as null and any other input unchanged |
| BorrowingForms.EntryPayload | client/src/component/Borrowing.jsx:205-211 | the full form sends every field as entered and an empty due date as null |
| BorrowingForms.QuickPayload | client/src/component/Borrowing.jsx:169-176 | quick-add always sends `borrowed` with the reminder disabled and 0 days; an empty due date is sent as null and any other as entered |
| BorrowingForms.QuickAddStored | client/src/component/Borrowing.jsx:169-176 | a quick-add is stored exactly when the trimmed name is non-blank, the amount a number >= 0 and the due date empty or a valid date; it is stored `borrowed`, `pending`, with the full balance and the reminder disabled with 3 days |
| BorrowingForms.EntryEmptyDueDateStoredNull | client/src/component/Borrowing.jsx:205-211 | an empty due date on the full form ends up as no due date on the record |
| BorrowingForms.ToggleTarget | client/src/component/Borrowing.jsx:888-902 | the button sends `paid` exactly when the entry is not paid, and `pending` exactly when it is |
| BorrowingForms.ToggleApplied | client/src/component/Borrowing.jsx:888-902 | pressing the button makes the entry `paid` iff it was not, `pending` iff it was, and keeps the balance |
| BorrowingForms.DueDateBody | client/src/component/Borrowing.jsx:312 | the due-date dialog sends only a due date: null for an empty input, otherwise `new Date` of it |
| BorrowingForms.ClearingDueDateClearsRecord | client/src/component/Borrowing.jsx:302-313 | clearing the due date in the dialog removes it from the record and keeps the balance |
| ExpenseRecords.MonthOf | client/src/component/Records.jsx:240 | `new Date(year, month)` names the same absolute month with a month in 0..11 |
| ExpenseRecords.PreviousMonth | client/src/component/Records.jsx:240 | "last month" is a valid month one before the current one in absolute months |
| ExpenseRecords.PreviousMonthRollsOver | client/src/component/Records.jsx:239-241 | the month before January is December of the previous year; otherwise the year stays and the month drops by one |
| ExpenseRecords.InPeriod | client/src/component/Records.jsx:236-245 | this month means the current month and year, last month the previous month, this year the current year, and anything else every expense |
| ExpenseRecords.FilteredExpenses | client/src/component/Records.jsx:232-247 | each period's list is an order-preserving subsequence holding every expense in the period as many times as the input does and nothing else; "all" keeps every expense |
| ExpenseRecords.ThisMonthWithinThisYear | client/src/component/Records.jsx:237-243 | the this-month list is a subsequence of the this-year list |
| ExpenseRecords.LastMonthInJanuary | client/src/component/Records.jsx:239-241 | in January, "last month" keeps exactly December of the previous year |
| ExpenseRecords.LastMonthDisjointFromThisMonth | client/src/component/Records.jsx:237-241 | no expense is both "last month" and "this month" |
| ExpenseRecords.CategoryColor | client/src/component/Records.jsx:56-68 | a listed category gets its own classes and any other the `Other` classes, so the result is always a palette entry |
| ExpenseRecords.CategoryColorAsWritten | client/src/component/Records.jsx:67 | the lookup as written: listed categories get their classes; inherited object member names get that member instead of the fallback |
| ExpenseRecords.CategoryColorAsWrittenSkipsFallback | client/src/component/Records.jsx:67 | for the category `constructor` the written lookup differs from the `Other` fallback |
| ExpenseRecords.CategoryColorAgreesOutsidePrototype | client/src/component/Records.jsx:56-68 | outside the inherited names, the written lookup and the corrected one agree |
| ExpenseRecords.Summarize | client/src/component/Records.jsx:106-107 | the total is the sum of amounts; the average times the count is the total, and the average is 0 for no records |
| ExpenseRecords.RoundShare | client/src/component/Records.jsx:134-139 | each column share is the nearest integer to `width * percent / 100`, with halves rounded up |
| ExpenseRecords.RoundingDriftBounded | client/src/component/Records.jsx:141-143 | the rounded widths sum to between 2 less and 3 more than the available width |
| ExpenseRecords.ColumnWidths | client/src/component/Records.jsx:132-144 | after the fix-up the six widths sum exactly to the available width; the first five are the rounded shares; the last moves by at most 3 |
| ExpenseRecords.ColumnPositions | client/src/component/Records.jsx:146-147 | the first column starts at the margin and each next column starts one width further, so each start is the margin plus the widths before it |
| ExpenseRecords.Download | client/src/component/Records.jsx:70-147 | nothing is produced for an empty list; otherwise the totals are the report summary, the widths are the fixed-up column widths of the page less both margins, each column starts at the margin plus the widths before it, and the table ends exactly at the right margin |
| ExpenseRecords.A4Layout | client/src/component/Records.jsx:132-144 | on a 210 mm page the columns are 20, 31, 58, 20, 20 and 21 mm |

## Left out

- Token checking (`verifyToken`, server/controller/borrowingController.js:5-19), HTTP routing and the `fetch` calls. The caller's user id is a parameter.
- Rendering, modals, scrolling, `alert`, `localStorage`, and `Intl`/`toLocale*` formatting on both pages.
- Arbitrary PATCH bodies. The update handler passes the whole body to the database, so a client could overwrite `amount` or `remaining` directly. Only the three fields the page sends (payment, status, due date) are modelled, so `ReplayPreservesValid` holds only for those bodies.
- The gap between the `findOne` and the `findOneAndUpdate` in the update handler. It is a concurrency race; the model applies each update atomically.
- A malformed id string. It makes the database driver throw a cast error, answered with 500; ids here are naturals.
- Parsing of numbers and dates. `parseFloat` / `Number` on text happens before the model: amounts arrive as `Option<int>` (`None` for NaN). Which strings `new Date` accepts is left to the `parseDate` parameter; only its outcome (an instant or an Invalid Date) is modelled.
- Time zones. An expense's month and year are given directly.
- Floating point. Money is integral, so `Math.max(0, remaining - payment)` is exact. Column shares use exact percentages, not `0.12` etc. in binary floating point.
- The full form's reminder-days field. After the user edits it, it holds a string, and the server treats `"0"` as truthy and stores 0. The model takes that field as a number.
- Ordering between records with equal `createdAt`. The database leaves it unspecified; `GetBorrowings` promises only the descending order.
- `updatedAt` on an update that sets no schema field (a skipped payment). The model assumes it is still stamped.
- The page reset to 1 when the filter or the items change (a React effect), and filter names outside the four buttons, which behave like "all".
- jsPDF drawing, row wrapping and page breaks (client/src/component/Records.jsx:150-229). Also a non-integral page width: the model takes the available width as an integer. jsPDF's A4 page is 595.28 pt (about 210.0016 mm), so there the real table ends about 0.0016 mm short of the right margin.
- ExpenseRecords.ColumnWidths: does not promise the last width is non-negative. For very small widths (5 units) the five rounded-up shares already exceed the total.
- GetBorrowings: requires the store invariant `Valid`, which every reachable store has (`ReplayPreservesValid`). The model needs it to enumerate ids below `nextId`.
- Income and expense controllers, authentication, the other pages and `AutoLogout`: plain CRUD, cryptography, or timers outside the ledger.

## Findings

| source | as written | input that shows it | evidently intended | confidence | as-written member | corrected member |
|---|---|---|---|---|---|---|
| client/src/component/Records.jsx:67 | `colors[category] \|\| colors['Other']` reads a property of a plain object literal, so names inherited from `Object.prototype` are found and are truthy | a custom category `constructor` (the expense form accepts free text under "Other") yields the `Object` constructor function as the badge's class list | any category without its own entry gets the `Other` classes | high that it behaves so, low impact; not executed | ExpenseRecords.CategoryColorAsWrittenSkipsFallback | ExpenseRecords.CategoryColor |

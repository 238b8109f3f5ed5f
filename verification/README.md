# Budget tracker core in Dafny

This project models the server-side logic of a personal budget tracker: its
dashboard aggregator, its REST routes for transactions, categories,
preferences, registration, profile and receipt scanning, and the database
seed. It also covers the pure helpers of the web client: class-name merging,
date formatting, the quick-category picker, the amount input field and the
chart helpers.

The database is replaced by in-memory tables:

- `seq<TxWithCategory>` for transactions, each joined with its category;
- `seq<Category>` for categories;
- `seq<User>` for users.

Each Prisma read becomes a filter (`Store.FindMany`) or a sum
(`Store.AggregateSum`) over the table. Each write becomes a function from the
old table to the new one.

A route answers a `Common.Reply`: either a value, or an HTTP status with the
error message of its JSON body.

Amounts are whole currency units, stored as sent (`int`). Dates are proleptic Gregorian
civil dates (`Calendar.CivilDate`). An instant is a date plus the milliseconds
since its midnight (`Calendar.Instant`). Local time is a plain calendar: there
are no time zones and no daylight saving.

The JavaScript `Date` constructor is modelled with its month and day
overflow, including day 0 for the previous month's last day and two-digit
years mapping to the 1900s. It appears as `Calendar.MakeDate` and
`Calendar.JsYear`. `String(n)`, `padStart`, `split`, `join`, `trim` and
`parseInt` are modelled in `Text`.

Modules, in dependency order:

- `Common`, `Seqs`, `Text`, `Calendar`: options and replies; filters, sums and
  a stable insertion sort; JavaScript string primitives; civil dates and the
  `Date` constructor.
- `Domain`, `Store`, `Users`: records, the transaction table's `findMany` and
  `aggregate`, and the user lookups.
- `Validations`: the zod schemas as data, with one generic `Parse`, and a
  lemma per schema stating exactly which bodies it accepts.
- `DashboardPeriod`, `DashboardTotals`, `DashboardBreakdown`,
  `DashboardTrend`, `DashboardBalance`, `Dashboard`: the `GET /api/dashboard`
  aggregator, piece by piece, then assembled in the method `Dashboard.Get`.
- `Transactions`, `Categories`, `Preferences`, `Register`, `Profile`,
  `ReceiptScan`: the API routes.
- `Seed`: the default categories and the skip-if-seeded rule.
- `Utils`, `QuickPicker`, `AmountInput`, `Charts`: the client-side helpers.

The e-mail syntax check of zod is the parameter `emailOk`. The other
parameters stand for things outside the model:

- the password hash;
- the ids the database generates;
- the clock reading `now`;
- `new Date(string)` on a transaction body's date and on a string given
  to `formatDateInput` (`parseDate`);
- the text the recognition model answers;
- `JSON.parse`.

## Model

| member | source | states |
|---|---|---|
| `Dashboard.Get` | src/app/api/dashboard/route.ts:12-191 | The monthly income and expenses are the sums of the caller's rows of each type dated within the selected period. The balance is their difference and the count is the number of the period's rows. The running balance is the signed sum of all the caller's rows up to the period's end. The breakdown adds up to the monthly expenses. The 30-day balance trend ends at the running balance. |
| `DashboardPeriod.ResolvePeriod` | src/app/api/dashboard/route.ts:16-23 | The period runs from 00:00:00.000 on the 1st of the month given by `month` (of `now`'s month when absent) to 23:59:59.999 on that month's last day, and its start is not after its end. |
| `DashboardPeriod.PeriodOf` | src/app/api/dashboard/route.ts:17-19 | For a year and a 1-based month, which may be out of range, the period is the month with count `12 * year + month - 1`. Two-digit years are moved to the 1900s as the `Date` constructor does. |
| `DashboardPeriod.MonthBounds` | src/app/api/dashboard/route.ts:18-19 | `new Date(y, m - 1, 1)` is the first day and `new Date(y, m, 0)` the last day of the same month, leap years included. |
| `DashboardPeriod.TrendStart` | src/app/api/dashboard/route.ts:25-28 | The trend window starts at midnight 29 days before the period's last day, so it holds 30 calendar days ending with that day. |
| `DashboardTotals.TotalsOfPeriod` | src/app/api/dashboard/route.ts:92-98 | Filtering the period's rows by type and summing gives the same totals as a query restricted to that type. The balance is the signed sum of the period's rows and the count is their number. |
| `DashboardTotals.RunningBalanceIsNet` | src/app/api/dashboard/route.ts:69-102 | The income aggregate minus the expense aggregate, each missing sum read as 0, is the signed sum of the caller's rows dated up to the period's end, with no lower date bound. |
| `DashboardTotals.RunningBalanceSnoc` | src/app/api/dashboard/route.ts:69-78 | Storing one more row moves the running balance by that row's signed amount exactly when it is the caller's and dated no later than the end. Otherwise the running balance stays as it was. |
| `DashboardTotals.Recent` | src/app/api/dashboard/route.ts:49-54 | The recent list holds five rows, or all of the caller's rows when there are fewer. |
| `DashboardTotals.RecentNewest` | src/app/api/dashboard/route.ts:49-54 | The recent rows are the caller's, newest first, and each is taken no more often than it is stored. No row left out is newer than the oldest row shown. |
| `DashboardBreakdown.GroupByCategoryGroups` | src/app/api/dashboard/route.ts:105-119 | The map loop yields one group per distinct category id among the rows. Every row's category has a group. Each group carries the name, colour and icon of the first row with its id, and the summed amount of all rows with that id. |
| `DashboardBreakdown.AddRowKeepsGroups` | src/app/api/dashboard/route.ts:107-118 | One loop iteration, whether it adds to a group or creates one, keeps the groups exactly those of the rows seen so far. |
| `DashboardBreakdown.GroupSum` | src/app/api/dashboard/route.ts:105-119 | The groups' amounts add up to the amounts of the rows grouped. |
| `DashboardBreakdown.CategoryTotalBounds` | src/app/api/dashboard/route.ts:105-119 | With no negative amount, a category's total lies between zero and the total of all rows. |
| `DashboardBreakdown.Percentage` | src/app/api/dashboard/route.ts:125 | For a positive total, the percentage is the whole percent nearest to `100 * amount / total`, halves rounded up. For a total of zero or less it is 0. |
| `DashboardBreakdown.PercentageBounds` | src/app/api/dashboard/route.ts:125 | A share of a positive total, between zero and that total, is a whole percent from 0 to 100. |
| `DashboardBreakdown.SortedGroups` | src/app/api/dashboard/route.ts:121-122 | The sorted values are a permutation of the map's values, in non-increasing order of amount. |
| `DashboardBreakdown.GroupsOfPermutation` | src/app/api/dashboard/route.ts:121-122 | Any reordering of the groups of some rows is still exactly the groups of those rows. |
| `DashboardBreakdown.SortedGroupsGroups` | src/app/api/dashboard/route.ts:121-122 | After sorting, the groups are still exactly the groups of the month's expense rows. |
| `DashboardBreakdown.Breakdown` | src/app/api/dashboard/route.ts:121-126 | The breakdown has one item per category group, in non-increasing order of amount. |
| `DashboardBreakdown.BreakdownItems` | src/app/api/dashboard/route.ts:105-126 | Each item is the expense total of a category that has expense rows in the month. It is named, coloured and iconed after that category's first expense row, and carries its rounded share of the monthly expenses. No category appears twice, and every expense row's category appears. |
| `DashboardBreakdown.BreakdownSum` | src/app/api/dashboard/route.ts:121-126 | The breakdown's amounts add up to the month's total expenses. |
| `DashboardBreakdown.BreakdownPercentages` | src/app/api/dashboard/route.ts:125 | With no negative amount, every percentage of the breakdown lies between 0 and 100. |
| `DashboardTrend.MonthStartIsConstructed` | src/app/api/dashboard/route.ts:133 | `new Date(now.getFullYear(), now.getMonth() - i, 1)` is the 1st of the month `i` months before `now`'s, across year boundaries. |
| `DashboardTrend.TrendLabels` | src/app/api/dashboard/route.ts:133-135 | Entry `j` is labelled with the short English name and year of the month `5 - j` months before `now`'s month, not before the selected month's. |
| `DashboardTrend.RowKeyIsMonth` | src/app/api/dashboard/route.ts:134-139 | A row's `YYYY-MM` key equals a month's key exactly when the row is dated in that month. |
| `DashboardTrend.InWindow` | src/app/api/dashboard/route.ts:57-66 | A row dated in one of the six months meets the read's lower bound, the 1st of the oldest month at midnight. |
| `DashboardTrend.WindowLowerBoundRedundant` | src/app/api/dashboard/route.ts:57-66 | For each of the six months, the rows the loop picks out of the third read are the ones it would pick out of all of the caller's rows up to the end date. |
| `DashboardTrend.BucketRows` | src/app/api/dashboard/route.ts:137-140 | A month's bucket holds exactly the caller's stored rows dated in that month and no later than the end date, each as often as it is stored. |
| `DashboardTrend.TrendIncome` | src/app/api/dashboard/route.ts:144-146 | Entry `j`'s income is the income of the caller's rows dated in its month, up to the end date. |
| `DashboardTrend.TrendExpenses` | src/app/api/dashboard/route.ts:147-149 | Entry `j`'s expenses are the expenses of the caller's rows dated in its month, up to the end date. |
| `DashboardBalance.DayKeyInjective` | src/app/api/dashboard/route.ts:165 | The `YYYY-MM-DD` key gives different days different names. |
| `DashboardBalance.TxByDayLookup` | src/app/api/dashboard/route.ts:162-168 | A day's entry in the map, read with `?? 0`, is the signed sum of the window's rows dated that day. |
| `DashboardBalance.WalkAt` | src/app/api/dashboard/route.ts:171-179 | Point `i` of the walk names day `i` and holds the prior balance plus the entries of days 0 to `i`. |
| `DashboardBalance.WalkCollects` | src/app/api/dashboard/route.ts:162-179 | For any naming of days that tells days apart, the walk's first `n` days collect exactly the signed amounts of the rows dated on one of those days. |
| `DashboardBalance.InWindowInWalk` | src/app/api/dashboard/route.ts:81-88 | An instant from the trend start through the end falls on one of the 30 walked days. |
| `DashboardBalance.WindowInWalk` | src/app/api/dashboard/route.ts:81-88 | Every row of the window read falls on one of the 30 walked days. |
| `DashboardBalance.WalkCoversWindow` | src/app/api/dashboard/route.ts:155-179 | Over the 30 days, the walk adds up exactly `windowNet`. |
| `DashboardBalance.BalanceTrendDays` | src/app/api/dashboard/route.ts:173-176 | Point `i` names the day `i` days after the trend start, and the last point names the period's last day. |
| `DashboardBalance.BalanceTrendStep` | src/app/api/dashboard/route.ts:155-179 | Each point is the previous point's balance, or `priorBalance` for the first, plus the signed amounts of the window's rows dated on its day. |
| `DashboardBalance.BalanceTrendEnds` | src/app/api/dashboard/route.ts:155-179 | The last point's balance equals the running balance. |
| `Store.FindManyCount` | src/app/api/dashboard/route.ts:40-46 | `findMany` returns each stored row that matches the `where` clause as often as it is stored, and no other row. |
| `Store.AggregateSum` | src/app/api/dashboard/route.ts:69-72 | The `_sum` is null exactly when no row matches. |
| `Store.AggregateOrZero` | src/app/api/dashboard/route.ts:101-102 | `_sum.amount ?? 0` is the sum of the matching rows' amounts, an empty sum being 0. |
| `Store.IncomeMinusExpenses` | src/app/api/dashboard/route.ts:92-98 | Income minus expenses is the signed sum of the rows, incomes positive and expenses negative. |
| `Store.KindFilterIsQuery` | src/app/api/dashboard/route.ts:92-98 | Filtering a query's rows by type gives the same rows as adding that type to the query. |
| `Calendar.MakeDateFirst` | src/lib/utils.ts:46 | `new Date(y, mi, 1)` is the 1st of the month with count `12 * y + mi`, the month index overflowing into the year. |
| `Calendar.MakeDateLast` | src/lib/utils.ts:47 | `new Date(y, mi + 1, 0)` is the last day of the month with count `12 * y + mi`, leap years included. |
| `Calendar.AddDaysIncreasing` | src/app/api/dashboard/route.ts:174-175 | Stepping `setDate` further forward always lands on a later day, so the walked days are distinct. |
| `Calendar.AddDaysCover` | src/app/api/dashboard/route.ts:174-175 | Every day between a start and `n` days after it is reached by some step of at most `n`. |
| `Calendar.MonthKeyInjective` | src/app/api/dashboard/route.ts:134 | Different months have different `YYYY-MM` keys. |
| `Calendar.DateKeyInjective` | src/app/api/dashboard/route.ts:165 | Different days have different `YYYY-MM-DD` keys. |
| `Utils.KeptTruthy` | src/lib/utils.ts:2-3 | Exactly the truthy arguments survive the filter, in argument order and each as often as it occurs, and none of them renders empty. |
| `Utils.CnEmpty` | src/lib/utils.ts:2-3 | `cn` gives the empty string exactly when no argument is truthy. |
| `Utils.CnSplitsBack` | src/lib/utils.ts:2-3 | When no surviving class name contains a space, splitting the result at spaces gives the surviving names back, so the single spaces inserted by `join` are the only separators. |
| `Utils.CnIgnoresFalsy` | src/lib/utils.ts:2-3 | A false, null, undefined or empty-string argument changes nothing, wherever it stands. |
| `Utils.FormatDateInputShape` | src/lib/utils.ts:29-37 | The text is the full year, then `-MM-DDTHH:mm`, with the 1-based month, day, hours and minutes each padded to exactly two digits. |
| `Utils.FormatDateInputInjective` | src/lib/utils.ts:29-37 | Two instants give the same text exactly when they fall on the same day in the same minute. |
| `Utils.FormatDateInputOfInvalid` | src/lib/utils.ts:29-37 | The argument may be a `Date` or a string passed to `new Date`. The text is `NaN-NaN-NaNTNaN:NaN` exactly when the argument is a string the date parser rejects. A `Date` or a parsable string always renders as a real date. |
| `Utils.GetCurrentMonthRange` | src/lib/utils.ts:44-49 | The start is 00:00:00.000 on the 1st and the end is 23:59:59.999 on the last day of the month of `now`, as the `Date` constructor reads the year. |
| `Utils.MonthRangeBounds` | src/lib/utils.ts:46-47 | Both ends lie in the same month: the start on its 1st at midnight, the end on its last day (leap years included) one millisecond before midnight. So the start is before the end. |
| `Utils.MonthRangeHoldsNow` | src/lib/utils.ts:44-48 | Outside the years 0 to 99, the range is the month of `now` and contains `now`. |
| `Validations.ParseEntriesSucceeds` | src/lib/validations.ts:18-24 | An object schema accepts a body exactly when every key it names passes its own schema. |
| `Validations.ParseKeys` | src/lib/validations.ts:18-24 | A parsed object holds exactly the keys the schema names, whatever else the body holds. |
| `Validations.ParseEntriesValue` | src/lib/validations.ts:18-24 | A key the schema names once holds, after a successful parse, the value its own schema accepted. |
| `Validations.SchemaKeys` | src/lib/validations.ts:8-59 | Each schema names the keys the source lists, and no others. |
| `Validations.RegisterAccepts` | src/lib/validations.ts:8-16 | A registration is accepted exactly with a name of at least 2 characters, a valid e-mail address, a password of at least 6 characters and an equal confirmation. |
| `Validations.RegisterFields` | src/lib/validations.ts:8-12 | An accepted registration keeps the four values sent. |
| `Validations.TransactionAccepts` | src/lib/validations.ts:18-24 | A transaction is accepted exactly with a positive amount, an optional description of at most 255 characters, the type INCOME or EXPENSE, and non-empty date and category id. |
| `Validations.TransactionFields` | src/lib/validations.ts:18-24 | An accepted transaction keeps the values sent, and the description defaults to the empty string. |
| `Validations.CategoryAccepts` | src/lib/validations.ts:26-31 | A category is accepted exactly with a name of 1 to 50 characters, the type INCOME or EXPENSE, a non-empty icon, and a colour of `#` and six hexadecimal digits of either case. |
| `Validations.CategoryFields` | src/lib/validations.ts:26-31 | An accepted category keeps the four values sent. |
| `Validations.UpdateProfileAccepts` | src/lib/validations.ts:33-37 | A profile update is accepted exactly with a name of at least 2 characters, a valid e-mail address and a non-empty currency. |
| `Validations.UpdateProfileFields` | src/lib/validations.ts:33-37 | An accepted profile update keeps the three values sent. |
| `Validations.ChangePasswordAccepts` | src/lib/validations.ts:39-46 | A password change is accepted exactly with current and new passwords of at least 6 characters and a confirmation equal to the new one. |
| `Validations.ReceiptResultAccepts` | src/lib/validations.ts:53-59 | A receipt result is accepted exactly with a positive amount, non-empty category id and date, a description of at most 255 characters, and the type exactly EXPENSE. |
| `Validations.ReceiptResultFields` | src/lib/validations.ts:53-59 | An accepted receipt result keeps the values sent and has the type EXPENSE. |
| `Domain.ParseTxType` | src/lib/validations.ts:21 | Only the exact spellings INCOME and EXPENSE are types, and each is read back as itself. |
| `Domain.KindFilter` | src/app/api/transactions/route.ts:18-20 | A `type` parameter restricts a listing exactly when it is INCOME or EXPENSE. |
| `QuickPicker.IndexOf` | src/components/categories/quick-category-picker.tsx:31 | `indexOf` is -1 exactly for a missing id, and otherwise the first position holding it. |
| `QuickPicker.ToggleRemoves` | src/components/categories/quick-category-picker.tsx:31-34 | Tapping a selected id removes it from its place and keeps the others in their relative order. |
| `QuickPicker.ToggleRemovesEvery` | src/components/categories/quick-category-picker.tsx:31-34 | On any stored selection, including one that repeats an id, tapping a selected id removes every copy of it. Every other id stays as often as it occurred. |
| `QuickPicker.ToggleAdds` | src/components/categories/quick-category-picker.tsx:36-37 | Tapping an unselected id appends it when fewer than four are selected, and changes nothing otherwise. |
| `QuickPicker.ToggleValid` | src/components/categories/quick-category-picker.tsx:29-39 | A tap on a selection without duplicates and of at most four ids leaves it so. |
| `QuickPicker.ToggleAllValid` | src/components/categories/quick-category-picker.tsx:29-39 | Any sequence of taps keeps a valid selection valid. |
| `QuickPicker.ToggleTwice` | src/components/categories/quick-category-picker.tsx:29-39 | Tapping an unselected id twice on a selection that is not full gives the selection back. |
| `QuickPicker.DisabledIsNoop` | src/components/categories/quick-category-picker.tsx:27-51 | A button is disabled exactly when its category is unselected and four are selected, and then a tap would change nothing. |
| `QuickPicker.BadgePosition` | src/components/categories/quick-category-picker.tsx:49-71 | A badge is shown exactly for a selected category. It is the category's 1-based position, from 1 to 4, and different categories get different badges. |
| `Preferences.GetPrefs` | src/app/api/preferences/route.ts:5-23 | When no user has the caller's id, the answer is false and two empty lists. Otherwise it is the preferences stored on the first user with that id. |
| `Preferences.GetAfterPatch` | src/app/api/preferences/route.ts:5-74 | After an accepted update, `GET` reads back exactly the preferences the update answered with. |
| `Preferences.PatchKeepsOthersPrefs` | src/app/api/preferences/route.ts:60-68 | An accepted update leaves `GET` for every other user id answering what it answered before. |
| `Preferences.PatchRejects` | src/app/api/preferences/route.ts:38-58 | A body is turned away with 400 exactly when a quick-category list it carries is not an array of at most four strings. A bad expense list is reported first. |
| `Preferences.PatchWrites` | src/app/api/preferences/route.ts:29-68 | An accepted body writes only the keys it carries: `hideAmounts` as the truthiness of the value sent, each list as the strings sent. Every other field and every other user stays as it was. |
| `Preferences.PatchKeepsListsShort` | src/app/api/preferences/route.ts:38-58 | No accepted update stores more than four ids in either list. |
| `Preferences.PatchMissingUser` | src/app/api/preferences/route.ts:60-68 | Updating a missing user record fails with a 500. |
| `Preferences.ObjectsAreTruthy` | src/app/api/preferences/route.ts:33-58 | `Boolean` of an object is true, even of an empty one, so `{"hideAmounts": {}}` stores and answers hidden amounts. An object in place of either list is refused with that list's 400 message. |
| `Preferences.PickerListAccepted` | src/app/api/preferences/route.ts:38-47 | Every selection the picker can produce passes the route's guard and is stored as picked. |
| `AmountInput.SanitizeKeeps` | src/components/transactions/transaction-form.tsx:193 | Cleaning keeps exactly the digits and dots of the input, in order and each as often as it occurs, and cleaning again changes nothing. |
| `AmountInput.SanitizeNoComma` | src/components/transactions/transaction-form.tsx:193 | The cleaned text holds no comma. |
| `AmountInput.AmountRejects` | src/components/transactions/transaction-form.tsx:195-197 | A keystroke is refused exactly when the cleaned text has a second dot, or more than two characters after its only dot. |
| `AmountInput.GroupShape` | src/components/transactions/transaction-form.tsx:199 | Grouping cuts the digits into groups of three from the right, with a leading group of one to three and never a leading comma. It adds nothing but commas. |
| `AmountInput.DisplayNoDot` | src/components/transactions/transaction-form.tsx:200 | Without a dot, the display is the grouped integer part alone. |
| `AmountInput.DisplayOneDot` | src/components/transactions/transaction-form.tsx:200 | With one dot, the display is the grouped integer part, the dot and the fraction verbatim. |
| `AmountInput.DisplayRoundTrip` | src/components/transactions/transaction-form.tsx:199-200 | Removing the commas from an accepted display gives the cleaned text back, and the fraction is kept verbatim. |
| `AmountInput.AmountDisplay` | src/components/transactions/transaction-form.tsx:193-200 | An accepted keystroke shows the cleaned text with its integer part grouped in threes and its fraction verbatim. Without the commas, it is the cleaned text again. |
| `ReceiptScan.UploadChecks` | src/app/api/receipts/scan/route.ts:30-49 | An upload passes exactly when it is a JPEG, PNG, WebP, HEIC or HEIF image of at most 4194304 bytes. A failure is a 400 naming the first check failed: missing file, then type, then size. |
| `ReceiptScan.SizeBoundary` | src/app/api/receipts/scan/route.ts:44-49 | Exactly 4 MiB passes, and one byte more is refused as too large. |
| `ReceiptScan.OpenShape` | src/app/api/receipts/scan/route.ts:20 | The first replacement cuts something exactly when the text starts with three backticks. What it cuts is the fence, an optional `json` in any case, and all the white space after it. |
| `ReceiptScan.CloseShape` | src/app/api/receipts/scan/route.ts:20 | The second replacement cuts something exactly when the text ends with three backticks followed only by white space. What it cuts is a closing fence with at most one new line before it. |
| `ReceiptScan.StripShape` | src/app/api/receipts/scan/route.ts:19-20 | The result is the text with at most one opening fence cut from the front and at most one closing fence cut from the end of what is left. |
| `ReceiptScan.NoFenceUnchanged` | src/app/api/receipts/scan/route.ts:19-20 | Text that neither starts nor ends with a fence comes back unchanged. |
| `ReceiptScan.StripWrapped` | src/app/api/receipts/scan/route.ts:18-20 | A body fenced as a code block, with or without a `json` tag, comes back as it was, provided it does not start with white space. |
| `ReceiptScan.ResultIsExpense` | src/app/api/receipts/scan/route.ts:122-125 | Whatever type the model answered, the validated result has the type EXPENSE. Its other four fields are the ones answered, and it is accepted exactly when they are valid. |
| `ReceiptScan.TypeIgnored` | src/app/api/receipts/scan/route.ts:122-125 | The type the model answers makes no difference to what is validated. |
| `ReceiptScan.ExpenseChoicesExact` | src/app/api/receipts/scan/route.ts:52-59 | A choice with a given id and name is offered exactly when a stored expense category that the user may use, a default or the user's own, has that id and name. |
| `ReceiptScan.FirstNamed` | src/app/api/receipts/scan/route.ts:139 | `find` by name gives the first position with that name, or nothing when no choice has it. |
| `ReceiptScan.FallbackRule` | src/app/api/receipts/scan/route.ts:135-143 | A known category id is kept, and an empty list also keeps the id. Otherwise the result is always an id from the list: the first one with the fallback name if there is one, else the first one. |
| `ReceiptScan.SeedHasNoOther` | prisma/seed.ts:5-24 | No seeded category is named "Other". The tenth seeded category is named "Other Expense". |
| `ReceiptScan.FallbackMissesOtherExpense` | src/app/api/receipts/scan/route.ts:137-139 | On two seeded expense categories and an unknown id, the fallback as written takes the first category, while the intended fallback takes "Other Expense". |
| `ReceiptScan.SeededListHasOther` | src/app/api/receipts/scan/route.ts:52-59 | Once the defaults are seeded, every user's expense list holds a category named "Other Expense". |
| `ReceiptScan.SeededFallbackIsOtherExpense` | src/app/api/receipts/scan/route.ts:134-143 | Once the defaults are seeded, the intended fallback of an unknown category id is always a category named "Other Expense". |
| `ReceiptScan.ScanFailures` | src/app/api/receipts/scan/route.ts:30-132 | Whatever name the fallback looks for, a scan fails with 400 exactly when the upload checks fail. It fails with 422 exactly when they pass but the trimmed answer is empty, not JSON or not a valid expense. An empty answer and a non-JSON answer get the same message. |
| `ReceiptScan.ScanAnswer` | src/app/api/receipts/scan/route.ts:103-145 | Whatever name the fallback looks for, a successful scan answers an expense with the amount, date and description the model read. Its category id is one of the user's expense categories whenever the user has any. |
| `ReceiptScan.ScanRoutesAgree` | src/app/api/receipts/scan/route.ts:103-145 | The route as written and the corrected route fail alike, with the same status and message. On success they return the same fields with the same values, except possibly the category id. |
| `Transactions.OrDefault` | src/app/api/transactions/route.ts:13-14 | A present, non-empty parameter is used as it is. The result is empty only when the default is, so an absent or empty parameter never reads as empty. |
| `Transactions.ListWhere` | src/app/api/transactions/route.ts:16-28 | The filter is the caller's rows, of the given type when one is spelled exactly. With a month, it covers the 1st of that month at midnight up to, but not including, the 1st of the next. |
| `Transactions.MonthFilter` | src/app/api/transactions/route.ts:22-28 | With a month, a row matches exactly when it is the caller's, of the requested type, and dated in the half-open month. |
| `Transactions.NoMonthFilter` | src/app/api/transactions/route.ts:16-20 | Without a month, every row of the caller's of the requested type matches. |
| `Transactions.Ordered` | src/app/api/transactions/route.ts:30-34 | The listing's rows are a permutation of the matching rows, newest first. |
| `Transactions.Window` | src/app/api/transactions/route.ts:35-36 | `skip` then `take` yields the rows from position `skip` on, at most `take` of them. |
| `Transactions.TotalPagesBounds` | src/app/api/transactions/route.ts:47 | With a positive limit, the page count is zero exactly for no rows. Otherwise all rows fit in that many pages and not in one fewer. |
| `Transactions.ListOutcome` | src/app/api/transactions/route.ts:13-47 | A listing is answered exactly when page and limit parse as numbers, the limit is not negative, and the page is at least 1 unless the limit is 0. |
| `Transactions.ListPage` | src/app/api/transactions/route.ts:30-48 | An answered page holds, newest first, at most `limit` rows of the ordered matching rows, from position `(page - 1) * limit` on. Every row is the caller's and matches the filter, and the total counts every matching row. |
| `Transactions.ListDefaults` | src/app/api/transactions/route.ts:13-14 | Without `page` and `limit`, the first page of twenty rows is answered. |
| `Transactions.RowOnPage` | src/app/api/transactions/route.ts:35-36 | Every row lies on exactly one page, at the slot its position leaves after the earlier pages. |
| `Transactions.EveryRowListed` | src/app/api/transactions/route.ts:30-47 | Asking for the page that holds a row, with the same filter and limit, answers that row in its slot. |
| `Transactions.CategoryIndex` | src/app/api/transactions/route.ts:69 | The category joined to a row is the one with the row's category id, or none when no category has it. |
| `Transactions.CreateOutcome` | src/app/api/transactions/route.ts:56-78 | Invalid input answers 400. A valid body answers 500 exactly when its date is not a date or no category has its id, whoever owns that category. |
| `Transactions.CreateWrites` | src/app/api/transactions/route.ts:60-70 | A recorded transaction is one new row at the end, owned by the caller whatever the body says. It has the positive amount, the description (empty when not sent), the type, the date and the category sent. |
| `Transactions.CreateListedForCallerOnly` | src/app/api/transactions/route.ts:60-68 | After a creation, the caller's unfiltered listing counts one more row and every other user's listings are unchanged. |
| `Categories.NameLeTotal` | src/app/api/categories/route.ts:23 | Any two names are ordered one way or the other. |
| `Categories.NameLeTrans` | src/app/api/categories/route.ts:23 | The name order is transitive. |
| `Categories.NameLeAntisymmetric` | src/app/api/categories/route.ts:23 | Names ordered both ways are equal. |
| `Categories.ListedBeforeTotal` | src/app/api/categories/route.ts:23 | Of any two categories, one may be listed before the other. |
| `Categories.ListedBeforeTrans` | src/app/api/categories/route.ts:23 | The listing order, defaults first and then by name, is transitive. |
| `Categories.InsertOrdered` | src/app/api/categories/route.ts:23 | Inserting a category into an ordered listing keeps it ordered. |
| `Categories.SortListedOrdered` | src/app/api/categories/route.ts:23 | Sorting returns the same categories, each as often, in listing order. |
| `Categories.ListExact` | src/app/api/categories/route.ts:13-24 | The list holds every default or own category, each as often as it is stored, and no other. It is restricted to one type only when the parameter is exactly INCOME or EXPENSE. |
| `Categories.ListOrdered` | src/app/api/categories/route.ts:21-24 | Defaults come first. Among defaults, and among own categories, names ascend. |
| `Categories.CreateOutcome` | src/app/api/categories/route.ts:33-70 | Invalid input answers 400. A category of the same name and type that the caller owns or that is a default answers 400 with its own message. |
| `Categories.CreateWrites` | src/app/api/categories/route.ts:53-62 | A created category is one new row at the end. It is owned by the caller, is not a default, and has the name, type, icon and colour sent. The other rows are unchanged. |
| `Categories.CreateKeepsNoDuplicates` | src/app/api/categories/route.ts:38-62 | A creation by anyone keeps every user's visible categories free of name-and-type duplicates, provided they were before. |
| `Categories.CreateAllKeepsNoDuplicates` | src/app/api/categories/route.ts:38-62 | Any sequence of creation requests, handled one at a time, keeps every user's visible categories free of name-and-type duplicates. |
| `Users.FindById` | src/app/api/profile/route.ts:10-13 | The lookup by id finds a record with that id exactly when one exists. |
| `Register.RegisterOutcome` | src/app/api/register/route.ts:7-39 | Invalid input answers 400. Valid input with an address some user already has answers 400 with its own message. Anything else creates the account. |
| `Register.RegisterCreates` | src/app/api/register/route.ts:22-35 | A registration adds exactly one user, at the end. The user has the name and address sent and the hash of the password sent, never the password itself, and the route answers the new id. |
| `Register.RegisterKeepsUnique` | src/app/api/register/route.ts:11-30 | From a table with unique addresses and ids, a registration keeps addresses unique, and keeps ids unique when the generated id is new. |
| `Register.RegisterAllKeepsUnique` | src/app/api/register/route.ts:11-30 | Registrations handled one at a time keep e-mail addresses unique, and keep ids unique when every generated id is new. |
| `Profile.GetProfile` | src/app/api/profile/route.ts:6-19 | The caller's name, address and currency are answered, or a 404 exactly when no user has the caller's id. |
| `Profile.PatchConflict` | src/app/api/profile/route.ts:31-43 | On valid input, the update is refused with 409 exactly when a user with a different id already has the requested address. |
| `Profile.PatchOwnEmail` | src/app/api/profile/route.ts:31-43 | With unique addresses, keeping one's own address is allowed. |
| `Profile.PatchWrites` | src/app/api/profile/route.ts:45-55 | A successful update sets the caller's name, address and currency to the values sent and changes nothing else, in no other record. |
| `Profile.PatchKeepsUnique` | src/app/api/profile/route.ts:31-53 | From a table with unique addresses and ids, an update keeps both unique. |
| `Seed.SeedKinds` | prisma/seed.ts:5-24 | The seed lists fifteen categories: ten expense categories, then five income categories. |
| `Seed.SeedNamesUnique` | prisma/seed.ts:5-24 | No two seed categories of the same type share a name. |
| `Seed.AllEntriesOk` | prisma/seed.ts:5-24 | Every seed name has 1 to 50 characters, every icon is non-empty, and every colour is `#` and six hexadecimal digits. |
| `Seed.SeedEntriesValid` | prisma/seed.ts:5-24 | Every seed category would pass the schema that a user's own category must pass. |
| `Seed.SeedSkips` | prisma/seed.ts:28-36 | With a default category present, seeding changes nothing. |
| `Seed.SeedAdds` | prisma/seed.ts:38-47 | Without a default, seeding appends exactly the fifteen entries as shared defaults with no owner, and leaves the existing rows as they were. |
| `Seed.SeedIdempotent` | prisma/seed.ts:26-47 | Seeding twice is seeding once, whatever ids the second run would generate. |
| `Seed.SeedKeepsNoDuplicates` | prisma/seed.ts:38-47 | Seeding a table whose categories clash with no seed entry keeps every user's visible categories free of name-and-type duplicates, provided they were before. |
| `Charts.AbbreviatedSuffix` | src/components/dashboard/charts.tsx:21-25 | The suffix is "M" exactly from a million up and "K" exactly from a thousand to below a million. Below a thousand there is no suffix and the text is the number itself. |
| `Charts.TenthsNearest` | src/components/dashboard/charts.tsx:22-23 | The tenths shown are the nearest tenths of the value in the unit. |
| `Charts.AbbreviatedNearest` | src/components/dashboard/charts.tsx:22-23 | An abbreviated value is the sign, the whole part, one decimal and the suffix, and it is within half a tenth of the unit of the value. |
| `Charts.AbbreviatedCarry` | src/components/dashboard/charts.tsx:23 | Just below a million, rounding carries into "1000.0K" rather than switching to "M". |
| `Charts.ParsePad2` | src/components/dashboard/charts.tsx:30 | A zero-padded two-digit day or month reads back as its value. |
| `Charts.DateTickOfKey` | src/components/dashboard/charts.tsx:28-31 | The tick of a `YYYY-MM-DD` key is `M/D` with leading zeros dropped. |
| `Charts.DateTickWithoutDash` | src/components/dashboard/charts.tsx:28-31 | Text without a dash has no month or day part, and its tick is "NaN/NaN". |
| `Charts.TrendLabelPrefix` | src/components/dashboard/charts.tsx:43 | The bar label is the month label up to its first space, or all of it when it has none. |
| `Charts.TrendLabelOfMonth` | src/components/dashboard/charts.tsx:43 | A dashboard trend month's bar is labelled with the month's short name alone. |
| `Charts.LegendSplit` | src/components/dashboard/charts.tsx:141-159 | The legend shows the first entries, at most five. The count left out makes up the rest, and the "more" line appears exactly when there are more than five entries. |
| `Charts.MoreLineCount` | src/components/dashboard/charts.tsx:155-159 | The "more" line is a plus sign and the number of entries left out. |
| `Charts.PctSign` | src/components/dashboard/charts.tsx:173-220 | The badge says the balance rose, fell or stayed against the first day. From a zero start it follows the sign of the last balance. The "+" sign is shown exactly when the change is not negative. |
| `Charts.PctRecoversCurrent` | src/components/dashboard/charts.tsx:173-182 | From a non-zero start, the first balance plus the percentage of its size gives the last balance back. |
| `Text.Split` | src/components/transactions/transaction-form.tsx:195 | Splitting at a character gives one part more than the character's occurrences, and no part contains it. |
| `Text.ParseIntOfDigits` | src/components/dashboard/charts.tsx:30 | `parseInt` of a run of digits is its decimal value, leading zeros included. |
| `Text.ParseIntOfNatToString` | src/app/api/transactions/route.ts:13-14 | `parseInt` reads back what `String(n)` writes. |

## Left out

- Prisma and SQL: each read is a filter over an in-memory table. Rows with equal sort keys keep table order, which is one of the orders the database may return. Category names are ordered by character code, not by the database's collation.
- `Promise.all` and concurrent requests: the model handles requests one after the other. The uniqueness results (`Categories.CreateAllKeepsNoDuplicates`, `Register.RegisterAllKeepsUnique`) hold only for sequential handling; the check-then-create races are not modelled.
- Authentication and sessions: the caller's id is a parameter.
- Hashing: bcrypt is the parameter `hash`. Generated ids are parameters too.
- The login schema: no route in the model uses it.
- The recognition call: the Gemini request, base64 encoding and `formData` are left out. The answer text and `JSON.parse` are parameters, and only JSON objects are modelled as parse results. A failure of `request.json()` is not modelled.
- `request.json()` bodies: these are maps from keys to `Validations.Json` values, nested objects and arrays included. JSON numbers are integers.
- Fractional amounts: the form builds the amount with `parseFloat`, the schema accepts any positive number, and the routes store and sum it unscaled. The model's amounts are whole currency units, so fractional amounts are not modelled. Neither are their floating-point effects: on the sums of the dashboard, on `Math.round` in the percentages, and on `toFixed` in the axis labels, which abbreviate at 1000 and 1000000 of those same units.
- The e-mail syntax test of zod: it is the parameter `emailOk`.
- String lengths: a length is the number of `char`s. UTF-16 surrogate pairs are not told apart.
- Database failures inside a `try`: these become 500 answers in the source. The model answers 500 only where its own inputs force one: a missing user, an unparsable date, or an unknown category id. A throw outside any `try` is answered `Err(500, "")`.
- The 201 status of successful creations: the model's `Ok` carries no status code.
- `Transactions.ListOutcome`: a negative limit, or a page below 1 with a positive limit, is answered 500. The model does not reproduce Prisma's treatment of a negative `take`.
- The `month` query parameter: it is taken after `split("-").map(Number)`, as a year and a month number (`DashboardPeriod.MonthArg`). Text that is not a number, which makes an invalid `Date`, is not modelled.
- The monthly trend follows the code: its six months end with the month of `now`, not with the selected month.
- `DashboardBreakdown.Percentage`: it rounds the exact fraction to the nearest whole percent, halves up. It does not reproduce the floating-point error of `amount / totalExpenses * 100` in `Math.round`.
- `Charts.AbbreviatedNearest`: it rounds the exact tenths, halves up. `toFixed(1)` rounds the nearest double, which can round a half down (2050 is shown as "2.0K" in JavaScript).
- `Charts.PctChange`: the percentage is an exact fraction. Its `toFixed(1)` rendering is not modelled.
- `Charts.DateTickOfKey`: it is stated only for years from 0 on. A negative year puts one more dash in the key.
- `Utils.FormatDateInputShape`: it is stated for an instant. A string argument is handled by `Utils.FormatDateInputOf`, where `new Date` on the string is the parameter `parseDate`. Which strings the engine accepts is not modelled.
- `Utils.MonthRangeHoldsNow`: it is stated outside the years 0 to 99, where the `Date` constructor's two-digit-year rule would move the range to the 1900s.
- Time zones and daylight saving: local time is a plain calendar with 86 400 000 milliseconds per day.
- The amount field: `parseFloat`, the form value it sets, and the `onBlur` formatting are not modelled.
- Rendering: `Intl` formatting (`formatCurrency`, `getCurrencySymbol`, `formatDate`, `getMonthName`) is not modelled. Neither are the charts' empty-data `null` and the badge's CSS classes.
- `Transactions.CreateTransaction`: the category lookup accepts any category with the id sent, whoever owns it, as the route does. There is no ownership check to model.

## Findings

| source | as written | input that shows it | evidently intended | confidence | as-written member | corrected member |
|---|---|---|---|---|---|---|
| src/app/api/receipts/scan/route.ts:137-139 | When the answered category id is unknown, the fallback looks for a category named exactly "Other". No seeded category has that name. So unless the user has created an own expense category named "Other", the fallback takes the first category in listing order. | The expense list `[Education c1, Other Expense c2]` with the category id "unknown": the fallback as written gives c1. | The fallback should take the category named "Other Expense", as the comment on line 137 says and the seed provides. | not executed | `ReceiptScan.FallbackAsWritten`, used by the route `ReceiptScan.ScanAsWritten` and shown by `ReceiptScan.FallbackMissesOtherExpense` | `ReceiptScan.Fallback`, used by the route `ReceiptScan.Scan`, with `ReceiptScan.SeededFallbackIsOtherExpense` |

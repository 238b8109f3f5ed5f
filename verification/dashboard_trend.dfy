/** The six-bucket monthly trend: income and expenses of each of the six
    calendar months ending with the month of `now`. Months are named by
    their count `12 * year + monthIndex`. */
module DashboardTrend {
  import opened Common
  import opened Seqs
  import opened Text
  import opened Calendar
  import opened Domain
  import opened Store

  /** One element of `monthlyTrend` (`MonthlyTrend` in the shared types). */
  datatype TrendPoint = TrendPoint(month: string, income: int, expenses: int)

  /** The index of one of the six trend entries, oldest first. */
  type Slot = j: int | 0 <= j < 6

  const MonthNames: seq<string> :=
    ["Jan", "Feb", "Mar", "Apr", "May", "Jun", "Jul", "Aug", "Sep", "Oct", "Nov", "Dec"]

  /** The month count of `now` as the `Date` constructor sees it. */
  function NowMonth(now: Instant): int {
    JsYear(now.date.year) * 12 + now.date.month - 1
  }

  /** `new Date(now.getFullYear(), now.getMonth() - i, 1)` is the 1st of the
      month `i` months before `now`'s, two-digit years included. */
  lemma MonthStartIsConstructed(now: Instant, i: int)
    ensures MakeDate(now.date.year, now.date.month - 1 - i, 1) == FirstOfMonth(NowMonth(now) - i)
  {
    MakeDateFirst(now.date.year, now.date.month - 1 - i);
  }

  /** The `YYYY-MM` key of a row's date. */
  function RowMonthKey(row: TxWithCategory): string {
    MonthKey(row.tx.date.date.year, row.tx.date.date.month)
  }

  /** `monthKey` of the month with count `k`. */
  function KeyOfMonth(k: int): string {
    MonthKey(FirstOfMonth(k).year, FirstOfMonth(k).month)
  }

  /** The test `key(t.date) === monthKey`. */
  function KeyTest(key: string): TxWithCategory -> bool {
    (row: TxWithCategory) => RowMonthKey(row) == key
  }

  /** `monthTransactions`: the rows whose month key is that of month `k`. */
  function Bucket(rows: seq<TxWithCategory>, k: int): seq<TxWithCategory> {
    Filter(rows, KeyTest(KeyOfMonth(k)))
  }

  /** `monthLabel`: the month's short English name and its year. */
  function MonthLabel(k: int): string {
    MonthNames[FirstOfMonth(k).month - 1] + " " + IntToString(FirstOfMonth(k).year)
  }

  /** The third read: the caller's rows from the 1st of the month five
      months before `now`'s through `endDate`. */
  function MonthlyData(store: seq<TxWithCategory>, userId: string, now: Instant, end: Instant): seq<TxWithCategory> {
    FindMany(store, Where(userId, None, Some(StartOfDay(FirstOfMonth(NowMonth(now) - 5))), Some(end), None))
  }

  /** One iteration of the loop, for the month with count `k`. */
  function TrendEntry(monthlyData: seq<TxWithCategory>, k: int): TrendPoint {
    var rows := Bucket(monthlyData, k);
    TrendPoint(MonthLabel(k), IncomeTotal(rows), ExpenseTotal(rows))
  }

  /** `monthlyTrend`: the loop `for (let i = 5; i >= 0; i--)` over the
      third read. */
  function MonthlyTrend(store: seq<TxWithCategory>, userId: string, now: Instant, end: Instant): (r: seq<TrendPoint>)
    ensures |r| == 6
  {
    TrendOf(MonthlyData(store, userId, now, end), NowMonth(now))
  }

  /** The six iterations, `i = 5` first, so the oldest month comes first. */
  function TrendOf(monthlyData: seq<TxWithCategory>, last: int): (r: seq<TrendPoint>)
    ensures |r| == 6
  {
    seq(6, Iteration(monthlyData, last))
  }

  /** The loop body as a function of the position `j = 5 - i`. */
  function Iteration(monthlyData: seq<TxWithCategory>, last: int): int -> TrendPoint {
    j => TrendEntry(monthlyData, last - (5 - j))
  }

  /** Entry `j` is the iteration for `5 - j` months before the last. */
  lemma TrendOfAt(monthlyData: seq<TxWithCategory>, last: int, j: Slot)
    ensures TrendOf(monthlyData, last)[j] == TrendEntry(monthlyData, last - (5 - j))
  {
    hide TrendEntry;
  }

  /** Entry `j` is labelled with the month `5 - j` months before the last. */
  lemma TrendOfMonth(monthlyData: seq<TxWithCategory>, last: int, j: Slot)
    ensures TrendOf(monthlyData, last)[j].month == MonthLabel(last - (5 - j))
  {
    TrendOfAt(monthlyData, last, j);
  }

  /** Entry `j` is labelled with the month `5 - j` months before `now`'s,
      so the six labels name consecutive months ending with `now`'s. */
  lemma TrendLabels(store: seq<TxWithCategory>, userId: string, now: Instant, end: Instant, j: Slot)
    ensures var k := NowMonth(now) - (5 - j);
      MonthlyTrend(store, userId, now, end)[j].month
        == MonthNames[k % 12] + " " + IntToString(k / 12)
  {
    TrendOfMonth(MonthlyData(store, userId, now, end), NowMonth(now), j);
  }

  /** A row's key equals the key of month `k` exactly when the row is dated
      in month `k`. */
  lemma RowKeyIsMonth(row: TxWithCategory, k: int)
    ensures RowMonthKey(row) == KeyOfMonth(k) <==> MonthIndex(row.tx.date.date) == k
  {
    var d, f := row.tx.date.date, FirstOfMonth(k);
    if RowMonthKey(row) == KeyOfMonth(k) {
      MonthKeyInjective(d.year, d.month, f.year, f.month);
    }
  }

  /** A row dated in one of the six months meets the read's lower bound
      (the 1st of the oldest month at 00:00). */
  lemma InWindow(row: TxWithCategory, last: int, k: int)
    requires last - 5 <= k <= last
    requires MonthIndex(row.tx.date.date) == k
    ensures InstantLe(StartOfDay(FirstOfMonth(last - 5)), row.tx.date)
  {
    OrdinalByMonth(row.tx.date.date);
    OrdinalByMonth(FirstOfMonth(last - 5));
    StartOfDayLe(FirstOfMonth(last - 5), row.tx.date);
  }

  /** Only the lower bound of the window differs between the read and the
      caller's rows up to `endDate`, and a row dated in one of the six
      months always meets it: the bucket of each of the six months holds
      the same rows as when taken from all of the caller's rows up to
      `endDate`. */
  lemma WindowLowerBoundRedundant(store: seq<TxWithCategory>, userId: string, now: Instant, end: Instant, k: int)
    requires NowMonth(now) - 5 <= k <= NowMonth(now)
    ensures Bucket(MonthlyData(store, userId, now, end), k)
         == Bucket(FindMany(store, Where(userId, None, None, Some(end), None)), k)
  {
    hide Filter, RowMonthKey, KeyOfMonth, MonthIndex, InstantLe, StartOfDay, FirstOfMonth;
    var wide := Where(userId, None, Some(StartOfDay(FirstOfMonth(NowMonth(now) - 5))), Some(end), None);
    var all := Where(userId, None, None, Some(end), None);
    forall row | KeyTest(KeyOfMonth(k))(row)
      ensures MatchTest(wide)(row) == MatchTest(all)(row)
    {
      RowKeyIsMonth(row, k);
      InWindow(row, NowMonth(now), k);
    }
    FilterFilterAgree(store, MatchTest(wide), MatchTest(all), KeyTest(KeyOfMonth(k)));
  }

  /** Entry `j`'s income is that of the rows of its month. */
  lemma TrendOfIncome(monthlyData: seq<TxWithCategory>, last: int, j: Slot)
    ensures TrendOf(monthlyData, last)[j].income == IncomeTotal(Bucket(monthlyData, last - (5 - j)))
  {
    TrendOfAt(monthlyData, last, j);
  }

  /** Entry `j`'s expenses are those of the rows of its month. */
  lemma TrendOfExpenses(monthlyData: seq<TxWithCategory>, last: int, j: Slot)
    ensures TrendOf(monthlyData, last)[j].expenses == ExpenseTotal(Bucket(monthlyData, last - (5 - j)))
  {
    TrendOfAt(monthlyData, last, j);
  }

  /** The bucket of entry `j`'s month is the same whether taken from the
      read or from all of the caller's rows up to `endDate`. */
  lemma EntryBucket(store: seq<TxWithCategory>, userId: string, now: Instant, end: Instant, j: Slot)
    ensures Bucket(MonthlyData(store, userId, now, end), NowMonth(now) - (5 - j))
         == Bucket(FindMany(store, Where(userId, None, None, Some(end), None)), NowMonth(now) - (5 - j))
  {
    hide *;
    WindowLowerBoundRedundant(store, userId, now, end, NowMonth(now) - (5 - j));
  }

  /** Entry `j`'s income is that of the caller's rows up to `endDate` dated
      in the month `5 - j` months before `now`'s (which rows those are:
      `BucketRows`). */
  lemma TrendIncome(store: seq<TxWithCategory>, userId: string, now: Instant, end: Instant, j: Slot)
    ensures MonthlyTrend(store, userId, now, end)[j].income
         == IncomeTotal(Bucket(FindMany(store, Where(userId, None, None, Some(end), None)), NowMonth(now) - (5 - j)))
  {
    TrendOfIncome(MonthlyData(store, userId, now, end), NowMonth(now), j);
    EntryBucket(store, userId, now, end, j);
  }

  /** Entry `j`'s expenses, likewise. */
  lemma TrendExpenses(store: seq<TxWithCategory>, userId: string, now: Instant, end: Instant, j: Slot)
    ensures MonthlyTrend(store, userId, now, end)[j].expenses
         == ExpenseTotal(Bucket(FindMany(store, Where(userId, None, None, Some(end), None)), NowMonth(now) - (5 - j)))
  {
    TrendOfExpenses(MonthlyData(store, userId, now, end), NowMonth(now), j);
    EntryBucket(store, userId, now, end, j);
  }

  /** The bucket of month `k` taken from the caller's rows up to `endDate`
      holds exactly the caller's stored rows dated in that month and no
      later than `endDate`, each as often as it is stored. */
  lemma BucketRows(store: seq<TxWithCategory>, userId: string, end: Instant, k: int, row: TxWithCategory)
    ensures multiset(Bucket(FindMany(store, Where(userId, None, None, Some(end), None)), k))[row]
         == if row.tx.userId == userId && InstantLe(row.tx.date, end) && MonthIndex(row.tx.date.date) == k
            then multiset(store)[row] else 0
  {
    var all := Where(userId, None, None, Some(end), None);
    FilterCount(FindMany(store, all), KeyTest(KeyOfMonth(k)), row);
    FindManyCount(store, all, row);
    RowKeyIsMonth(row, k);
  }
}

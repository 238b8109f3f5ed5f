/** `GET /api/dashboard`: the six reads over the transaction table and the
    figures computed from them. */
module Dashboard {
  import opened Common
  import opened Seqs
  import opened Calendar
  import opened Domain
  import opened Store
  import opened DashboardPeriod
  import opened DashboardTotals
  import opened DashboardBreakdown
  import opened DashboardTrend
  import opened DashboardBalance

  /** The response body (`DashboardStats` in the shared types). */
  datatype DashboardStats = DashboardStats(
    totalIncome: int,
    totalExpenses: int,
    balance: int,
    runningBalance: int,
    transactionCount: int,
    recentTransactions: seq<TxWithCategory>,
    categoryBreakdown: seq<BreakdownItem>,
    monthlyTrend: seq<TrendPoint>,
    balanceTrend: seq<BalancePoint>)

  /** The dashboard for the caller `userId`, the optional `month` parameter
      and the clock reading `now`. */
  method Get(store: seq<TxWithCategory>, userId: string, month: Option<MonthArg>, now: Instant)
    returns (s: DashboardStats)
    ensures var p := ResolvePeriod(month, now);
      var w := PeriodWhere(userId, p);
      && s.totalIncome == Sum(FindMany(store, w.(kind := Some(Income))), Amount)
      && s.totalExpenses == Sum(FindMany(store, w.(kind := Some(Expense))), Amount)
      && s.balance == s.totalIncome - s.totalExpenses
      && s.transactionCount == |FindMany(store, w)|
      && s.runningBalance == Sum(FindMany(store, UpToWhere(userId, p.end)), Net)
    ensures var p := ResolvePeriod(month, now);
      && s.recentTransactions == Recent(store, userId)
      && s.categoryBreakdown == Breakdown(FindMany(store, PeriodWhere(userId, p)))
      && s.monthlyTrend == MonthlyTrend(store, userId, now, p.end)
    ensures Sum(s.categoryBreakdown, ItemAmount) == s.totalExpenses
    ensures var p := ResolvePeriod(month, now);
      && s.balanceTrend == BalanceTrend(store, userId, p.end, s.runningBalance)
      && s.balanceTrend[29].balance == s.runningBalance
  {
    var p := ResolvePeriod(month, now);
    var periodRows := FindMany(store, PeriodWhere(userId, p));
    var totals := Totals(periodRows);
    var running := RunningBalance(store, userId, p.end);
    s := DashboardStats(
      totals.income, totals.expenses, totals.balance, running, totals.count,
      Recent(store, userId), Breakdown(periodRows),
      MonthlyTrend(store, userId, now, p.end), BalanceTrend(store, userId, p.end, running));
    var w := PeriodWhere(userId, p);
    assert totals.income == Sum(FindMany(store, w.(kind := Some(Income))), Amount)
        && totals.expenses == Sum(FindMany(store, w.(kind := Some(Expense))), Amount)
        && totals.count == |periodRows| by {
      TotalsOfPeriod(store, userId, p);
    }
    assert running == Sum(FindMany(store, UpToWhere(userId, p.end)), Net) by {
      RunningBalanceIsNet(store, userId, p.end);
    }
    assert Sum(Breakdown(periodRows), ItemAmount) == totals.expenses by {
      BreakdownSum(periodRows);
    }
    BalanceTrendEnds(store, userId, p.end, running);
  }
}

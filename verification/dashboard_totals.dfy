/** The dashboard's month totals, its all-time running balance and its five
    most recent transactions. */
module DashboardTotals {
  import opened Common
  import opened Seqs
  import opened Calendar
  import opened Domain
  import opened Store
  import opened DashboardPeriod

  /** The first read: the caller's rows dated within the period. */
  function PeriodWhere(userId: string, p: Period): Where {
    Where(userId, None, Some(p.start), Some(p.end), None)
  }

  /** The caller's rows up to the end of the period, of any type. */
  function UpToWhere(userId: string, end: Instant): Where {
    Where(userId, None, None, Some(end), None)
  }

  /** The month's figures: `totalIncome`, `totalExpenses`, `balance` and
      `transactionCount`. */
  datatype MonthTotals = MonthTotals(income: int, expenses: int, balance: int, count: int)

  function Totals(periodRows: seq<TxWithCategory>): MonthTotals {
    var income := IncomeTotal(periodRows);
    var expenses := ExpenseTotal(periodRows);
    MonthTotals(income, expenses, income - expenses, |periodRows|)
  }

  /** The month totals are the sums the database would compute for the
      period restricted to each type, the balance is the signed sum of the
      period's rows, and the count is the number of the caller's rows in
      the period. */
  lemma TotalsOfPeriod(store: seq<TxWithCategory>, userId: string, p: Period)
    ensures var w := PeriodWhere(userId, p);
      var t := Totals(FindMany(store, w));
      && t.income == Sum(FindMany(store, w.(kind := Some(Income))), Amount)
      && t.expenses == Sum(FindMany(store, w.(kind := Some(Expense))), Amount)
      && t.balance == Sum(FindMany(store, w), Net)
      && t.count == |FindMany(store, w)|
  {
    var w := PeriodWhere(userId, p);
    KindFilterIsQuery(store, w, Income, IsIncome);
    KindFilterIsQuery(store, w, Expense, IsExpense);
    IncomeMinusExpenses(FindMany(store, w));
  }

  /** `runningBalance`: the two `aggregate` reads up to the end of the
      period, a missing sum counting as 0. */
  function RunningBalance(store: seq<TxWithCategory>, userId: string, end: Instant): int {
    AggregateSum(store, UpToWhere(userId, end).(kind := Some(Income))).GetOr(0)
      - AggregateSum(store, UpToWhere(userId, end).(kind := Some(Expense))).GetOr(0)
  }

  /** The running balance is the signed sum of all of the caller's rows up
      to `end`: no lower date bound is involved. */
  lemma RunningBalanceIsNet(store: seq<TxWithCategory>, userId: string, end: Instant)
    ensures RunningBalance(store, userId, end) == Sum(FindMany(store, UpToWhere(userId, end)), Net)
  {
    var w := UpToWhere(userId, end);
    AggregateOrZero(store, w.(kind := Some(Income)));
    AggregateOrZero(store, w.(kind := Some(Expense)));
    KindFilterIsQuery(store, w, Income, IsIncome);
    KindFilterIsQuery(store, w, Expense, IsExpense);
    IncomeMinusExpenses(FindMany(store, w));
  }

  /** Storing one more row moves the running balance by that row's signed
      amount when it is the caller's and dated no later than `end`, and
      leaves it alone otherwise. */
  lemma RunningBalanceSnoc(store: seq<TxWithCategory>, row: TxWithCategory, userId: string, end: Instant)
    ensures RunningBalance(store + [row], userId, end)
         == RunningBalance(store, userId, end)
            + (if row.tx.userId == userId && InstantLe(row.tx.date, end) then Net(row) else 0)
  {
    var w := UpToWhere(userId, end);
    RunningBalanceIsNet(store, userId, end);
    RunningBalanceIsNet(store + [row], userId, end);
    FindManySnoc(store, row, w);
    if Matches(w, row.tx) {
      SumSnoc(FindMany(store, w), row, Net);
    } else {
      assert FindMany(store, w) + [] == FindMany(store, w);
    }
  }

  /** `recentTransactions`: the caller's rows newest first, at most five.
      Rows with equal dates keep table order. */
  function Recent(store: seq<TxWithCategory>, userId: string): (r: seq<TxWithCategory>)
    ensures |r| == Min(5, |FindMany(store, Where(userId, None, None, None, None))|)
  {
    Take(SortDesc(FindMany(store, Where(userId, None, None, None, None)), DateOrder), 5)
  }

  /** The recent rows are the caller's, newest first, each taken from the
      caller's rows no more often than it occurs there, and no row left out
      is newer than the oldest one shown. */
  lemma RecentNewest(store: seq<TxWithCategory>, userId: string)
    ensures var mine := FindMany(store, Where(userId, None, None, None, None));
      var r := Recent(store, userId);
      && (forall i :: 0 <= i < |r| ==> r[i].tx.userId == userId)
      && SortedDesc(r, DateOrder)
      && multiset(r) <= multiset(mine)
      && (forall x :: x in multiset(mine) - multiset(r) ==> DateOrder(x) <= DateOrder(r[|r| - 1]))
  {
    var mine := FindMany(store, Where(userId, None, None, None, None));
    var sorted := SortDesc(mine, DateOrder);
    TakeOfSorted(sorted, 5, DateOrder);
    assert Recent(store, userId) == Take(sorted, 5);
    forall i | 0 <= i < |Recent(store, userId)|
      ensures Recent(store, userId)[i].tx.userId == userId
    {
      var x := Recent(store, userId)[i];
      assert x in multiset(sorted);
      assert x in multiset(mine);
    }
  }

  /** The first `n` elements of a sorted sequence are sorted, come from it,
      and what is left out is no larger than the last one kept. */
  lemma TakeOfSorted<T>(s: seq<T>, n: nat, key: T -> int)
    requires n > 0
    requires SortedDesc(s, key)
    ensures var r := Take(s, n);
      && SortedDesc(r, key)
      && multiset(r) <= multiset(s)
      && (forall x :: x in multiset(s) - multiset(r) ==> key(x) <= key(r[|r| - 1]))
  {
    if n <= |s| {
      var r, rest := s[..n], s[n..];
      assert s == r + rest;
      assert multiset(s) - multiset(r) == multiset(rest);
      RestBelow(s, n, key);
    }
  }

  /** Past position `n`, a sorted sequence holds nothing larger than its
      element at `n - 1`. */
  lemma RestBelow<T>(s: seq<T>, n: nat, key: T -> int)
    requires 0 < n <= |s|
    requires SortedDesc(s, key)
    ensures forall x :: x in multiset(s[n..]) ==> key(x) <= key(s[n - 1])
  {
    forall x | x in multiset(s[n..])
      ensures key(x) <= key(s[n - 1])
    {
      var j :| 0 <= j < |s[n..]| && s[n..][j] == x;
      assert s[n + j] == x;
    }
  }
}

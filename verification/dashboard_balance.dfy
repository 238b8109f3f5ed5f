/** The 30-day balance walk: the window's rows grouped by day key, and a
    walk over the 30 days ending with the period's last day that starts
    from the balance before the window. */
module DashboardBalance {
  import opened Common
  import opened Seqs
  import opened Calendar
  import opened Domain
  import opened Store
  import opened DashboardPeriod

  /** One element of `balanceTrend`. */
  datatype BalancePoint = BalancePoint(date: string, balance: int)

  /** The last read: the caller's rows from `trendStart` through `endDate`. */
  function WindowWhere(userId: string, end: Instant): Where {
    Where(userId, None, Some(TrendStart(end)), Some(end), None)
  }

  /** A way of naming days; the route's is `DayKey()`. The walk and its
      lemmas are stated for any naming that gives different days different
      names. */
  type KeyFn = CivilDate -> string

  /** The route's `YYYY-MM-DD` key. */
  function DayKey(): KeyFn {
    (d: CivilDate) => DateKey(d)
  }

  /** Different days have different names. */
  ghost predicate Injective(key: KeyFn) {
    forall a: CivilDate, b: CivilDate :: key(a) == key(b) ==> a == b
  }

  lemma DayKeyInjective()
    ensures Injective(DayKey())
  {
    forall a: CivilDate, b: CivilDate | DayKey()(a) == DayKey()(b)
      ensures a == b
    {
      DateKeyInjective(a, b);
    }
  }

  /** `map.get(key) ?? 0`. */
  function Lookup(m: map<string, int>, key: string): int {
    if key in m then m[key] else 0
  }

  /** `txByDay`: the loop that adds each row's signed amount to the entry of
      its day. */
  function TxByDay(rows: seq<TxWithCategory>, key: KeyFn): map<string, int>
    decreases |rows|
  {
    if |rows| == 0 then map[]
    else
      var m := TxByDay(rows[..|rows| - 1], key);
      var k := key(rows[|rows| - 1].tx.date.date);
      m[k := Lookup(m, k) + Net(rows[|rows| - 1])]
  }

  /** The test `key(t.date) === key`. */
  function DayTest(key: KeyFn, k: string): TxWithCategory -> bool {
    (row: TxWithCategory) => key(row.tx.date.date) == k
  }

  /** A day's entry is the signed sum of the rows dated that day, zero when
      there are none. */
  lemma {:induction false} TxByDayLookup(rows: seq<TxWithCategory>, key: KeyFn, k: string)
    ensures Lookup(TxByDay(rows, key), k) == Sum(Filter(rows, DayTest(key, k)), Net)
    decreases |rows|
  {
    if |rows| > 0 {
      var init, last := rows[..|rows| - 1], rows[|rows| - 1];
      TxByDayLookup(init, key, k);
      assert rows == init + [last];
      if key(last.tx.date.date) == k {
        SumSnoc(Filter(init, DayTest(key, k)), last, Net);
      }
    }
  }

  /** Reference definition: the entries of the first `n` days of the walk
      added up. */
  function DaySum(byDay: map<string, int>, name: nat -> string, n: nat): int
    decreases n
  {
    if n == 0 then 0 else DaySum(byDay, name, n - 1) + Lookup(byDay, name(n - 1))
  }

  /** `key(d)` for the day `d` that is `i` days after `start`. */
  function DayName(key: KeyFn, start: CivilDate): nat -> string {
    (i: nat) => key(AddDays(start, i))
  }

  /** The loop `for (let i = 0; i < n; i++)` that pushes one point per
      day: `name(i)` is the key of the day `i` days after the window's
      first, and `bal` (`prior` before the first day) gains that day's
      entry before it is recorded. */
  function Walk(prior: int, byDay: map<string, int>, name: nat -> string, n: nat): (r: seq<BalancePoint>)
    ensures |r| == n
    decreases n
  {
    if n == 0 then []
    else
      var w := Walk(prior, byDay, name, n - 1);
      var bal := if n == 1 then prior else w[n - 2].balance;
      w + [BalancePoint(name(n - 1), bal + Lookup(byDay, name(n - 1)))]
  }

  /** Point `i` of the walk names day `i` and holds the prior balance plus
      the entries of days `0..i`. */
  lemma {:induction false} WalkAt(prior: int, byDay: map<string, int>, name: nat -> string, n: nat, i: nat)
    requires i < n
    ensures Walk(prior, byDay, name, n)[i] == BalancePoint(name(i), prior + DaySum(byDay, name, i + 1))
    decreases n
  {
    if i < n - 1 {
      WalkAt(prior, byDay, name, n - 1, i);
    } else if i > 0 {
      WalkAt(prior, byDay, name, n - 1, i - 1);
    }
  }

  /** Day `d` is one of the first `n` days of a walk from `start`. */
  predicate InWalk(start: CivilDate, n: nat, d: CivilDate) {
    n > 0 && Ordinal(start) <= Ordinal(d) <= Ordinal(AddDays(start, n - 1))
  }

  function WalkTest(start: CivilDate, n: nat): TxWithCategory -> bool {
    (row: TxWithCategory) => InWalk(start, n, row.tx.date.date)
  }

  /** The first `n` days are the first `n - 1` days and one more day, which
      is not among them. */
  lemma InWalkStep(start: CivilDate, n: nat, d: CivilDate)
    requires n > 0
    ensures InWalk(start, n, d) <==> InWalk(start, n - 1, d) || d == AddDays(start, n - 1)
    ensures !(InWalk(start, n - 1, d) && d == AddDays(start, n - 1))
  {
    var last := AddDays(start, n - 1);
    if n == 1 {
      if InWalk(start, n, d) {
        OrdinalInjective(start, d);
      }
    } else {
      var prev := AddDays(start, n - 2);
      AddDaysIncreasing(start, n - 2, n - 1);
      if n - 1 > 0 {
        AddDaysIncreasing(start, 0, n - 1);
      }
      if InWalk(start, n, d) && !InWalk(start, n - 1, d) {
        NextDayLeast(prev, d);
        assert last == NextDay(prev);
        OrdinalInjective(last, d);
      }
    }
  }

  /** Adding a row adds its signed amount to the walk's sum when its day is
      one of the first `n` days of the walk, and nothing otherwise. */
  lemma {:induction false} DaySumSnoc(rows: seq<TxWithCategory>, row: TxWithCategory, key: KeyFn, start: CivilDate, n: nat)
    requires Injective(key)
    ensures DaySum(TxByDay(rows + [row], key), DayName(key, start), n)
         == DaySum(TxByDay(rows, key), DayName(key, start), n) + (if InWalk(start, n, row.tx.date.date) then Net(row) else 0)
    decreases n
  {
    if n > 0 {
      DaySumSnoc(rows, row, key, start, n - 1);
      assert (rows + [row])[..|rows|] == rows;
      InWalkStep(start, n, row.tx.date.date);
    }
  }

  /** The walk's first `n` days collect exactly the signed amounts of the
      rows dated on one of those days. */
  lemma {:induction false} WalkCollects(rows: seq<TxWithCategory>, key: KeyFn, start: CivilDate, n: nat)
    requires Injective(key)
    ensures DaySum(TxByDay(rows, key), DayName(key, start), n) == Sum(Filter(rows, WalkTest(start, n)), Net)
    decreases |rows|
  {
    if |rows| > 0 {
      var init, last := rows[..|rows| - 1], rows[|rows| - 1];
      WalkCollects(init, key, start, n);
      assert rows == init + [last];
      WalkCollectsStep(init, last, key, start, n);
    } else {
      DaySumEmpty(DayName(key, start), n);
    }
  }

  /** The step of `WalkCollects`: one more row on both sides. */
  lemma WalkCollectsStep(init: seq<TxWithCategory>, last: TxWithCategory, key: KeyFn, start: CivilDate, n: nat)
    requires Injective(key)
    requires DaySum(TxByDay(init, key), DayName(key, start), n) == Sum(Filter(init, WalkTest(start, n)), Net)
    ensures DaySum(TxByDay(init + [last], key), DayName(key, start), n)
         == Sum(Filter(init + [last], WalkTest(start, n)), Net)
  {
    hide *;
    DaySumSnoc(init, last, key, start, n);
    FilterSnoc(init, last, WalkTest(start, n));
    WalkTestIs(start, n, last);
    if WalkTest(start, n)(last) {
      SumSnoc(Filter(init, WalkTest(start, n)), last, Net);
    } else {
      assert Filter(init, WalkTest(start, n)) + [] == Filter(init, WalkTest(start, n));
    }
  }

  lemma WalkTestIs(start: CivilDate, n: nat, row: TxWithCategory)
    ensures WalkTest(start, n)(row) == InWalk(start, n, row.tx.date.date)
  {
  }

  /** With no entries, every day contributes 0. */
  lemma {:induction false} DaySumEmpty(name: nat -> string, n: nat)
    ensures DaySum(map[], name, n) == 0
    decreases n
  {
    if n > 0 {
      DaySumEmpty(name, n - 1);
    }
  }

  /** Every row of the window lies on one of the 30 days of the walk. */
  lemma WindowInWalk(store: seq<TxWithCategory>, userId: string, end: Instant)
    ensures var rows := FindMany(store, WindowWhere(userId, end));
      forall i :: 0 <= i < |rows| ==> InWalk(TrendStart(end).date, 30, rows[i].tx.date.date)
  {
    var rows := FindMany(store, WindowWhere(userId, end));
    forall i | 0 <= i < |rows|
      ensures InWalk(TrendStart(end).date, 30, rows[i].tx.date.date)
    {
      InWindowInWalk(rows[i].tx.date, end);
    }
  }

  /** An instant from `trendStart` through `end` falls on one of the 30
      days of the walk. */
  lemma InWindowInWalk(t: Instant, end: Instant)
    requires InstantLe(TrendStart(end), t) && InstantLe(t, end)
    ensures InWalk(TrendStart(end).date, 30, t.date)
  {
    var start := TrendStart(end);
    assert start == StartOfDay(start.date);
    StartOfDayLe(start.date, t);
    KeyOrder(Ordinal(t.date), t.ms, Ordinal(end.date), end.ms);
  }

  /** Over the whole window, the walk's 30 days add up to `windowNet`. */
  lemma WalkCoversWindow(store: seq<TxWithCategory>, userId: string, end: Instant)
    ensures var rows := FindMany(store, WindowWhere(userId, end));
      DaySum(TxByDay(rows, DayKey()), DayName(DayKey(), TrendStart(end).date), 30) == Sum(rows, Net)
  {
    var rows := FindMany(store, WindowWhere(userId, end));
    var start := TrendStart(end).date;
    WindowInWalk(store, userId, end);
    DayKeyInjective();
    WalkCollects(rows, DayKey(), start, 30);
    FilterKeepsAll(rows, WalkTest(start, 30));
  }

  /** `priorBalance`: the running balance less the window's net. */
  function PriorBalance(running: int, window: seq<TxWithCategory>): int {
    running - Sum(window, Net)
  }

  /** The 30-day walk over the rows of `window`, whose first day is
      `start`, starting from `priorBalance = running - windowNet`. */
  function TrendFrom(running: int, window: seq<TxWithCategory>, start: CivilDate): (r: seq<BalancePoint>)
    ensures |r| == 30
  {
    Walk(PriorBalance(running, window), TxByDay(window, DayKey()), DayName(DayKey(), start), 30)
  }

  lemma TrendFromDay(running: int, window: seq<TxWithCategory>, start: CivilDate, i: nat)
    requires i < 30
    ensures TrendFrom(running, window, start)[i].date == DateKey(AddDays(start, i))
  {
    WalkAt(PriorBalance(running, window), TxByDay(window, DayKey()), DayName(DayKey(), start), 30, i);
  }

  lemma TrendFromStep(running: int, window: seq<TxWithCategory>, start: CivilDate, i: nat)
    requires i < 30
    ensures var trend := TrendFrom(running, window, start);
      trend[i].balance
        == (if i == 0 then PriorBalance(running, window) else trend[i - 1].balance)
           + Sum(Filter(window, DayTest(DayKey(), trend[i].date)), Net)
  {
    var prior, byDay, name := PriorBalance(running, window), TxByDay(window, DayKey()), DayName(DayKey(), start);
    WalkAt(prior, byDay, name, 30, i);
    if i > 0 {
      WalkAt(prior, byDay, name, 30, i - 1);
    }
    TxByDayLookup(window, DayKey(), name(i));
  }

  lemma TrendFromEnds(running: int, window: seq<TxWithCategory>, start: CivilDate)
    requires DaySum(TxByDay(window, DayKey()), DayName(DayKey(), start), 30) == Sum(window, Net)
    ensures TrendFrom(running, window, start)[29].balance == running
  {
    WalkAt(PriorBalance(running, window), TxByDay(window, DayKey()), DayName(DayKey(), start), 30, 29);
  }

  /** `balanceTrend`: the walk over the 30 days ending with the last day of
      the period, over the caller's rows in that window. */
  function BalanceTrend(store: seq<TxWithCategory>, userId: string, end: Instant, running: int): (r: seq<BalancePoint>)
    ensures |r| == 30
  {
    TrendFrom(running, FindMany(store, WindowWhere(userId, end)), TrendStart(end).date)
  }

  /** Point `i` names the day `i` days after `trendStart`; the last one
      names the period's last day. */
  lemma BalanceTrendDays(store: seq<TxWithCategory>, userId: string, end: Instant, running: int, i: nat)
    requires i < 30
    ensures BalanceTrend(store, userId, end, running)[i].date == DateKey(AddDays(TrendStart(end).date, i))
    ensures BalanceTrend(store, userId, end, running)[29].date == DateKey(end.date)
  {
    var window := FindMany(store, WindowWhere(userId, end));
    TrendFromDay(running, window, TrendStart(end).date, i);
    TrendFromDay(running, window, TrendStart(end).date, 29);
  }

  /** Point `i` adds to the point before it (to `priorBalance` for the
      first) the signed amounts of the window's rows dated on its day. */
  lemma BalanceTrendStep(store: seq<TxWithCategory>, userId: string, end: Instant, running: int, i: nat)
    requires i < 30
    ensures var trend, window := BalanceTrend(store, userId, end, running), FindMany(store, WindowWhere(userId, end));
      trend[i].balance
        == (if i == 0 then PriorBalance(running, window) else trend[i - 1].balance)
           + Sum(Filter(window, DayTest(DayKey(), trend[i].date)), Net)
  {
    TrendFromStep(running, FindMany(store, WindowWhere(userId, end)), TrendStart(end).date, i);
  }

  /** Every row of the window falls on one of the 30 days, so the walk ends
      at `runningBalance` again. */
  lemma BalanceTrendEnds(store: seq<TxWithCategory>, userId: string, end: Instant, running: int)
    ensures BalanceTrend(store, userId, end, running)[29].balance == running
  {
    WalkCoversWindow(store, userId, end);
    TrendFromEnds(running, FindMany(store, WindowWhere(userId, end)), TrendStart(end).date);
  }
}

/** The dashboard's date boundaries: the selected month (or the current one)
    from its first to its last millisecond, and the start of the 30-day
    balance-trend window. */
module DashboardPeriod {
  import opened Common
  import opened Calendar

  /** The `month=YYYY-MM` query parameter after `split("-").map(Number)`. */
  datatype MonthArg = MonthArg(year: int, month: int)

  /** The selected period, both ends inclusive. */
  datatype Period = Period(start: Instant, end: Instant)

  /** The month count of the period: the parameter's month, or the month of
      `now` when the parameter is absent. */
  function SelectedMonth(month: Option<MonthArg>, now: Instant): int {
    match month
    case Some(a) => JsYear(a.year) * 12 + a.month - 1
    case None => JsYear(now.date.year) * 12 + now.date.month - 1
  }

  /** `startDate = new Date(y, m - 1, 1)` and
      `endDate = new Date(y, m, 0, 23, 59, 59, 999)`: the first day of the
      month at 00:00:00.000 through its last day at 23:59:59.999. */
  function ResolvePeriod(month: Option<MonthArg>, now: Instant): (p: Period)
    ensures p.start == StartOfDay(FirstOfMonth(SelectedMonth(month, now)))
    ensures p.end == EndOfDay(LastOfMonth(SelectedMonth(month, now)))
    ensures InstantLe(p.start, p.end)
  {
    MonthSpan(SelectedMonth(month, now));
    match month
    case Some(a) => PeriodOf(a.year, a.month)
    case None => PeriodOf(now.date.year, now.date.month)
  }

  /** The period of month `m` (1-based, possibly out of range) of year `y`. */
  function PeriodOf(y: int, m: int): (p: Period)
    ensures p.start == StartOfDay(FirstOfMonth(JsYear(y) * 12 + m - 1))
    ensures p.end == EndOfDay(LastOfMonth(JsYear(y) * 12 + m - 1))
  {
    MonthBounds(y, m);
    Period(StartOfDay(MakeDate(y, m - 1, 1)), EndOfDay(MakeDate(y, m, 0)))
  }

  /** `new Date(y, m - 1, 1)` and `new Date(y, m, 0)` are the first and last
      days of the month with count `12 * y + m - 1`. */
  lemma MonthBounds(y: int, m: int)
    ensures MakeDate(y, m - 1, 1) == FirstOfMonth(JsYear(y) * 12 + m - 1)
    ensures MakeDate(y, m, 0) == LastOfMonth(JsYear(y) * 12 + m - 1)
  {
    MakeDateFirst(y, m - 1);
    MakeDateLast(y, m - 1);
    assert (m - 1) + 1 == m;
  }

  /** `trendStart`: 29 days before the end of the period, at 00:00, so the
      window holds exactly 30 calendar days ending with the period's last. */
  const TrendDays: int := 30

  function TrendStart(end: Instant): (t: Instant)
    ensures t.ms == 0
    ensures AddDays(t.date, TrendDays - 1) == end.date
    ensures Ordinal(t.date) < Ordinal(end.date)
  {
    AddDaysBackAndForth(end.date, TrendDays - 1);
    StartOfDay(AddDays(end.date, 1 - TrendDays))
  }
}

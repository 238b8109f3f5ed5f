/** Civil (proleptic Gregorian) dates and the part of JavaScript's `Date`
    the application uses: the `new Date(year, monthIndex, day)` constructor
    with its month and day overflow, day stepping with `setDate`, and the
    `YYYY-MM` / `YYYY-MM-DD` keys built from `getFullYear`, `getMonth` and
    `getDate`. Local time is taken as a plain calendar: no time zone and no
    daylight-saving shift. */
module Calendar {
  import opened Text

  predicate IsLeapYear(y: int) {
    (y % 4 == 0 && y % 100 != 0) || y % 400 == 0
  }

  function DaysInMonth(y: int, m: int): (n: int)
    requires 1 <= m <= 12
    ensures 28 <= n <= 31
  {
    if m == 2 then (if IsLeapYear(y) then 29 else 28)
    else if m == 4 || m == 6 || m == 9 || m == 11 then 30
    else 31
  }

  /** A calendar day; `month` runs 1..12 (the application's `getMonth() + 1`). */
  datatype Date = Date(year: int, month: int, day: int)

  predicate ValidDate(d: Date) {
    1 <= d.month <= 12 && 1 <= d.day <= DaysInMonth(d.year, d.month)
  }

  type CivilDate = d: Date | ValidDate(d) witness Date(1970, 1, 1)

  /** An order-preserving number for a day: every month gets 31 slots and
      every year 372, so comparing ordinals compares (year, month, day)
      lexicographically. */
  function Ordinal(d: Date): int {
    d.year * 372 + (d.month - 1) * 31 + (d.day - 1)
  }

  lemma OrdinalInjective(a: CivilDate, b: CivilDate)
    requires Ordinal(a) == Ordinal(b)
    ensures a == b
  {
    assert a.year == b.year;
    assert a.month == b.month;
  }

  /** The day after `d` (`NextDayLeast`: no valid day lies in between). */
  function NextDay(d: CivilDate): (r: CivilDate)
    ensures Ordinal(d) < Ordinal(r)
  {
    if d.day < DaysInMonth(d.year, d.month) then Date(d.year, d.month, d.day + 1)
    else if d.month < 12 then Date(d.year, d.month + 1, 1)
    else Date(d.year + 1, 1, 1)
  }

  /** The day before `d` (`PrevDayGreatest`: no valid day lies in between). */
  function PrevDay(d: CivilDate): (r: CivilDate)
    ensures Ordinal(r) < Ordinal(d)
  {
    if d.day > 1 then Date(d.year, d.month, d.day - 1)
    else if d.month > 1 then Date(d.year, d.month - 1, DaysInMonth(d.year, d.month - 1))
    else Date(d.year - 1, 12, 31)
  }

  /** No valid day lies strictly between `d` and the day after it. */
  lemma NextDayLeast(d: CivilDate, e: CivilDate)
    requires Ordinal(d) < Ordinal(e)
    ensures Ordinal(NextDay(d)) <= Ordinal(e)
  {
    var n := NextDay(d);
    OrdinalLex(d, e);
    OrdinalLex(n, e);
  }

  /** No valid day lies strictly between the day before `d` and `d`. */
  lemma PrevDayGreatest(d: CivilDate, e: CivilDate)
    requires Ordinal(e) < Ordinal(d)
    ensures Ordinal(e) <= Ordinal(PrevDay(d))
  {
    var p := PrevDay(d);
    OrdinalLex(e, d);
    OrdinalLex(p, e);
  }

  /** Ordinals order days by year, then month, then day. */
  lemma OrdinalLex(a: Date, b: Date)
    requires 1 <= a.month <= 12 && 1 <= a.day <= 31
    requires 1 <= b.month <= 12 && 1 <= b.day <= 31
    ensures Ordinal(a) < Ordinal(b) <==>
      a.year < b.year || (a.year == b.year &&
        (a.month < b.month || (a.month == b.month && a.day < b.day)))
  {
    var x, y := (a.month - 1) * 31 + (a.day - 1), (b.month - 1) * 31 + (b.day - 1);
    assert x < y <==> a.month < b.month || (a.month == b.month && a.day < b.day) by {
      Lex(a.month - 1, a.day - 1, b.month - 1, b.day - 1, 31);
    }
    Lex(a.year, x, b.year, y, 372);
  }

  /** Pairs `(hi, lo)` with `lo` below the base compare lexicographically. */
  lemma Lex(a: int, x: int, b: int, y: int, base: int)
    requires 0 <= x < base && 0 <= y < base
    ensures a * base + x < b * base + y <==> a < b || (a == b && x < y)
  {
    ProductSign(b - a, base);
    assert b * base - a * base == (b - a) * base;
  }

  /** A non-zero multiple of a positive `k` is at least `k` away from 0. */
  lemma {:induction false} ProductSign(d: int, k: int)
    requires k > 0
    ensures d >= 1 ==> d * k >= k
    ensures d <= -1 ==> d * k <= -k
    decreases if d < 0 then -d else d
  {
    if d > 1 {
      ProductSign(d - 1, k);
      assert d * k == (d - 1) * k + k;
    } else if d < -1 {
      ProductSign(d + 1, k);
      assert d * k == (d + 1) * k - k;
    }
  }

  lemma NextOfPrev(d: CivilDate)
    ensures NextDay(PrevDay(d)) == d
  {
    var p := PrevDay(d);
    var n := NextDay(p);
    NextDayLeast(p, d);
    if Ordinal(n) < Ordinal(d) {
      PrevDayGreatest(d, n);
    }
    OrdinalInjective(n, d);
  }

  /** `setDate(getDate() + k)`: `k` days later (earlier when `k < 0`). */
  function AddDays(d: CivilDate, k: int): (r: CivilDate)
    ensures k > 0 ==> Ordinal(d) < Ordinal(r)
    ensures k < 0 ==> Ordinal(r) < Ordinal(d)
    decreases if k < 0 then -k else k
  {
    if k == 0 then d
    else if k > 0 then NextDay(AddDays(d, k - 1))
    else PrevDay(AddDays(d, k + 1))
  }

  /** Later steps land on later days, so the days of a walk are distinct. */
  lemma {:induction false} AddDaysIncreasing(d: CivilDate, i: nat, j: nat)
    requires i < j
    ensures Ordinal(AddDays(d, i)) < Ordinal(AddDays(d, j))
    decreases j
  {
    if i < j - 1 {
      AddDaysIncreasing(d, i, j - 1);
    }
  }

  /** Every day between `d` and `n` days after it is reached by the walk. */
  lemma {:induction false} AddDaysCover(d: CivilDate, n: nat, e: CivilDate) returns (i: nat)
    requires Ordinal(d) <= Ordinal(e) <= Ordinal(AddDays(d, n))
    ensures i <= n && AddDays(d, i) == e
    decreases n
  {
    if n == 0 {
      OrdinalInjective(d, e);
      i := 0;
    } else if Ordinal(e) <= Ordinal(AddDays(d, n - 1)) {
      i := AddDaysCover(d, n - 1, e);
    } else {
      NextDayLeast(AddDays(d, n - 1), e);
      OrdinalInjective(AddDays(d, n), e);
      i := n;
    }
  }

  lemma {:induction false} AddDaysAfterNext(d: CivilDate, k: nat)
    ensures AddDays(NextDay(d), k) == NextDay(AddDays(d, k))
    decreases k
  {
    if k > 0 {
      AddDaysAfterNext(d, k - 1);
    }
  }

  /** Going back `k` days and then forward `k` days returns to the start. */
  lemma {:induction false} AddDaysBackAndForth(d: CivilDate, k: nat)
    ensures AddDays(AddDays(d, -(k as int)), k) == d
    decreases k
  {
    if k > 0 {
      var back: int := -(k as int);
      var p := AddDays(d, back + 1);
      var q := PrevDay(p);
      assert AddDays(d, back) == q;
      assert AddDays(q, k) == NextDay(AddDays(q, k - 1));
      AddDaysAfterNext(q, k - 1);
      NextOfPrev(p);
      assert AddDays(q, k) == AddDays(p, k - 1);
      AddDaysBackAndForth(d, k - 1);
    }
  }

  /** The year the `Date` constructor uses: 0..99 mean 1900..1999. */
  function JsYear(y: int): int {
    if 0 <= y <= 99 then 1900 + y else y
  }

  /** `new Date(year, monthIndex, day)` (the calendar part): the month index
      overflows into the year by floor division, then `day - 1` days are
      added to the 1st of that month, so day 0 is the previous month's
      last day. */
  function MakeDate(year: int, monthIndex: int, day: int): CivilDate {
    AddDays(Date(JsYear(year) + monthIndex / 12, monthIndex % 12 + 1, 1), day - 1)
  }

  /** Months counted from January of year 0. */
  function MonthIndex(d: Date): int {
    d.year * 12 + d.month - 1
  }

  /** Each month takes 31 ordinal slots. */
  lemma OrdinalByMonth(d: Date)
    ensures Ordinal(d) == 31 * MonthIndex(d) + d.day - 1
  {
  }

  /** The 1st of the month with the given month count. */
  function FirstOfMonth(k: int): (r: CivilDate)
    ensures MonthIndex(r) == k && r.day == 1
  {
    Date(k / 12, k % 12 + 1, 1)
  }

  /** The last day of the month with the given month count. */
  function LastOfMonth(k: int): (r: CivilDate)
    ensures MonthIndex(r) == k && r.day == DaysInMonth(r.year, r.month)
  {
    Date(k / 12, k % 12 + 1, DaysInMonth(k / 12, k % 12 + 1))
  }

  /** A month's first day comes no later than its last, and both carry the
      month's count. */
  lemma MonthSpan(k: int)
    ensures InstantLe(StartOfDay(FirstOfMonth(k)), EndOfDay(LastOfMonth(k)))
  {
    var f, l := FirstOfMonth(k), LastOfMonth(k);
    assert f.year == l.year && f.month == l.month && f.day <= l.day;
    assert Ordinal(f) <= Ordinal(l);
  }

  lemma DivMod12(k: int, q: int, r: int)
    requires 0 <= r < 12 && k == 12 * q + r
    ensures k / 12 == q && k % 12 == r
  {
  }

  lemma MonthCount(year: int, monthIndex: int)
    ensures FirstOfMonth(JsYear(year) * 12 + monthIndex)
         == Date(JsYear(year) + monthIndex / 12, monthIndex % 12 + 1, 1)
  {
    DivMod12(JsYear(year) * 12 + monthIndex, JsYear(year) + monthIndex / 12, monthIndex % 12);
  }

  /** `new Date(y, mi, 1)` is the 1st of month `12 * y + mi` (two-digit
      years moved to the 1900s). */
  lemma MakeDateFirst(year: int, monthIndex: int)
    ensures MakeDate(year, monthIndex, 1) == FirstOfMonth(JsYear(year) * 12 + monthIndex)
  {
    MonthCount(year, monthIndex);
  }

  /** The day before the 1st of month `k + 1` is the last day of month `k`. */
  lemma PrevOfFirst(k: int)
    ensures PrevDay(FirstOfMonth(k + 1)) == LastOfMonth(k)
  {
    var q, r := k / 12, k % 12;
    if r == 11 {
      DivMod12(k + 1, q + 1, 0);
      assert FirstOfMonth(k + 1) == Date(q + 1, 1, 1);
    } else {
      DivMod12(k + 1, q, r + 1);
      assert FirstOfMonth(k + 1) == Date(q, r + 2, 1);
    }
  }

  /** `new Date(y, mi + 1, 0)` is the last day of month `12 * y + mi`, leap
      years included. */
  lemma MakeDateLast(year: int, monthIndex: int)
    ensures MakeDate(year, monthIndex + 1, 0) == LastOfMonth(JsYear(year) * 12 + monthIndex)
  {
    var k := JsYear(year) * 12 + monthIndex;
    MonthCount(year, monthIndex + 1);
    var next := FirstOfMonth(k + 1);
    assert AddDays(next, -1) == PrevDay(AddDays(next, 0));
    PrevOfFirst(k);
  }

  /** Milliseconds in a day (86 400 000); no leap seconds, no DST. */
  type MsOfDay = n: int | 0 <= n < 86400000

  /** A local date-time to the millisecond: a day and the milliseconds
      elapsed since its midnight. */
  datatype Instant = Instant(date: CivilDate, ms: MsOfDay)

  /** Milliseconds since the start of ordinal day 0; ordering instants by
      their key orders them by day, then by time of day. */
  function InstantKey(t: Instant): int {
    Ordinal(t.date) * 86400000 + t.ms
  }

  /** `a <= b` on `Date` objects. */
  predicate InstantLe(a: Instant, b: Instant) {
    InstantKey(a) <= InstantKey(b)
  }

  /** `a < b` on `Date` objects. */
  predicate InstantLt(a: Instant, b: Instant) {
    InstantKey(a) < InstantKey(b)
  }

  /** 00:00:00.000 of `d`. */
  function StartOfDay(d: CivilDate): (t: Instant)
    ensures t.date == d && t.ms == 0
  {
    Instant(d, 0)
  }

  /** 23:59:59.999 of `d` (`setHours(23, 59, 59, 999)`): the last
      millisecond of the day. */
  function EndOfDay(d: CivilDate): (t: Instant)
    ensures t.date == d && t.ms + 1 == 86400000
  {
    Instant(d, 86399999)
  }

  /** An instant is at or after the start of day `d` exactly when its day is
      not before `d`. */
  lemma StartOfDayLe(d: CivilDate, t: Instant)
    ensures InstantLe(StartOfDay(d), t) <==> Ordinal(d) <= Ordinal(t.date)
  {
    KeyOrder(Ordinal(d), 0, Ordinal(t.date), t.ms);
  }

  /** An instant is at or before the end of day `d` exactly when its day is
      not after `d`. */
  lemma LeEndOfDay(t: Instant, d: CivilDate)
    ensures InstantLe(t, EndOfDay(d)) <==> Ordinal(t.date) <= Ordinal(d)
  {
    KeyOrder(Ordinal(t.date), t.ms, Ordinal(d), 86399999);
  }

  /** Keys compare as (day, time of day) pairs. */
  lemma KeyOrder(a: int, x: MsOfDay, b: int, y: MsOfDay)
    ensures a * 86400000 + x <= b * 86400000 + y <==> a < b || (a == b && x <= y)
  {
    if a < b {
      assert a + 1 <= b;
      assert (a + 1) * 86400000 <= b * 86400000;
    } else if a > b {
      assert b + 1 <= a;
      assert (b + 1) * 86400000 <= a * 86400000;
    }
  }

  /** `${y}-${String(m).padStart(2, "0")}`: the month bucket key. */
  function MonthKey(year: int, month: int): string
    requires 1 <= month <= 12
  {
    IntToString(year) + ("-" + Pad2(month))
  }

  /** `${y}-${MM}-${DD}`: the day bucket key. */
  function DateKey(d: CivilDate): string {
    MonthKey(d.year, d.month) + ("-" + Pad2(d.day))
  }

  /** Two concatenations with equally long heads are equal only part by
      part. */
  lemma SplitEqual(a: string, x: string, b: string, y: string)
    requires a + x == b + y && |a| == |b|
    ensures a == b && x == y
  {
    assert a == (a + x)[..|a|] && b == (b + y)[..|b|];
    assert x == (a + x)[|a|..] && y == (b + y)[|b|..];
  }

  /** Month keys name months one-to-one. */
  lemma MonthKeyInjective(y1: int, m1: int, y2: int, m2: int)
    requires 1 <= m1 <= 12 && 1 <= m2 <= 12
    requires MonthKey(y1, m1) == MonthKey(y2, m2)
    ensures y1 == y2 && m1 == m2
  {
    var x1, x2 := "-" + Pad2(m1), "-" + Pad2(m2);
    Pad2Digits(m1);
    Pad2Digits(m2);
    assert |x1| == |x2| == 3;
    SplitEqual(IntToString(y1), x1, IntToString(y2), x2);
    IntToStringInjective(y1, y2);
    SplitEqual("-", Pad2(m1), "-", Pad2(m2));
    Pad2Injective(m1, m2);
  }

  /** Day keys name days one-to-one. */
  lemma DateKeyInjective(d1: CivilDate, d2: CivilDate)
    requires DateKey(d1) == DateKey(d2)
    ensures d1 == d2
  {
    var z1, z2 := "-" + Pad2(d1.day), "-" + Pad2(d2.day);
    Pad2Digits(d1.day);
    Pad2Digits(d2.day);
    assert |z1| == |z2| == 3;
    SplitEqual(MonthKey(d1.year, d1.month), z1, MonthKey(d2.year, d2.month), z2);
    MonthKeyInjective(d1.year, d1.month, d2.year, d2.month);
    SplitEqual("-", Pad2(d1.day), "-", Pad2(d2.day));
    Pad2Injective(d1.day, d2.day);
  }
}

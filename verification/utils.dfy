/** The helpers of the application's utility library that carry logic of
    their own: class-name merging, the `datetime-local` input format and the
    current month's range. */
module Utils {
  import opened Common
  import opened Text
  import opened Calendar
  import opened Seqs

  /** One argument of `cn`: a string, a boolean, `undefined` or `null`. */
  datatype ClassArg = Str(s: string) | Flag(b: bool) | Undefined | Null

  /** `Boolean(x)`: the empty string, `false`, `undefined` and `null` are
      falsy. */
  predicate Truthy(a: ClassArg) {
    match a
    case Str(s) => s != ""
    case Flag(b) => b
    case Undefined => false
    case Null => false
  }

  /** How `join` renders an argument that passed the filter. */
  function Render(a: ClassArg): string {
    match a
    case Str(s) => s
    case Flag(b) => if b then "true" else "false"
    case Undefined => ""
    case Null => ""
  }

  /** `parts.join(" ")`; an empty array joins to the empty string. */
  function JoinSpaces(parts: seq<string>): string {
    if |parts| == 0 then "" else Join(parts, ' ')
  }

  /** `classes.filter(Boolean)`, each survivor as `join` renders it. */
  function Kept(classes: seq<ClassArg>): (r: seq<string>)
    ensures |r| <= |classes|
    decreases |classes|
  {
    if |classes| == 0 then []
    else
      var init, last := Kept(classes[..|classes| - 1]), classes[|classes| - 1];
      if Truthy(last) then init + [Render(last)] else init
  }

  /** `classes.filter(Boolean).join(" ")`. */
  function Cn(classes: seq<ClassArg>): string {
    JoinSpaces(Kept(classes))
  }

  /** Exactly the truthy arguments survive, each as often as it occurs and
      in argument order; none of them renders empty. */
  lemma {:induction false} KeptTruthy(classes: seq<ClassArg>)
    ensures |Kept(classes)| == |Filter(classes, Truthy)|
    ensures forall i :: 0 <= i < |Kept(classes)| ==> Kept(classes)[i] == Render(Filter(classes, Truthy)[i])
    ensures forall i :: 0 <= i < |Kept(classes)| ==> Kept(classes)[i] != ""
    decreases |classes|
  {
    if |classes| > 0 {
      KeptTruthy(classes[..|classes| - 1]);
    }
  }

  /** `cn` is empty exactly when no argument is truthy. */
  lemma CnEmpty(classes: seq<ClassArg>)
    ensures Cn(classes) == "" <==> forall i :: 0 <= i < |classes| ==> !Truthy(classes[i])
  {
    KeptTruthy(classes);
    NoneKept(classes);
    if |Kept(classes)| > 0 {
      JoinNonEmpty(Kept(classes));
    }
  }

  /** Nothing survives the filter exactly when every argument is falsy. */
  lemma {:induction false} NoneKept(classes: seq<ClassArg>)
    ensures |Kept(classes)| == 0 <==> forall i :: 0 <= i < |classes| ==> !Truthy(classes[i])
    decreases |classes|
  {
    if |classes| > 0 {
      var init := classes[..|classes| - 1];
      NoneKept(init);
      assert forall i :: 0 <= i < |init| ==> init[i] == classes[i];
    }
  }

  /** A join whose first part is non-empty is non-empty. */
  lemma JoinNonEmpty(parts: seq<string>)
    requires |parts| >= 1 && parts[0] != ""
    ensures Join(parts, ' ') != ""
  {
    if |parts| > 1 {
      assert |Join(parts, ' ')| >= |parts[0]|;
    }
  }

  /** When no surviving class name holds a space, splitting the result at
      spaces gives back exactly the surviving names: the single spaces
      `join` inserts are the only separators. */
  lemma CnSplitsBack(classes: seq<ClassArg>)
    requires forall i :: 0 <= i < |Kept(classes)| ==> ' ' !in Kept(classes)[i]
    requires |Kept(classes)| > 0
    ensures Split(Cn(classes), ' ') == Kept(classes)
  {
    SplitJoin(Kept(classes), ' ');
  }

  /** A falsy argument contributes nothing wherever it stands. */
  lemma {:induction false} KeptIgnoresFalsy(before: seq<ClassArg>, a: ClassArg, after: seq<ClassArg>)
    requires !Truthy(a)
    ensures Kept(before + [a] + after) == Kept(before + after)
    decreases |after|
  {
    if |after| == 0 {
      assert before + [a] + after == before + [a];
      assert (before + [a])[..|before|] == before;
      assert before + after == before;
    } else {
      var init := after[..|after| - 1];
      KeptIgnoresFalsy(before, a, init);
      assert (before + [a] + after)[..|before + [a] + after| - 1] == before + [a] + init;
      assert (before + after)[..|before + after| - 1] == before + init;
    }
  }

  lemma CnIgnoresFalsy(before: seq<ClassArg>, a: ClassArg, after: seq<ClassArg>)
    requires !Truthy(a)
    ensures Cn(before + [a] + after) == Cn(before + after)
  {
    KeptIgnoresFalsy(before, a, after);
  }

  /** The string `formatDateInput` gives `input[type=datetime-local]`:
      `YYYY-MM-DDTHH:mm` in local time, the month 1-based, and month, day,
      hours and minutes padded to two digits. */
  function FormatDateInput(t: Instant): string {
    DateKey(t.date) + Clock(Hours(t), Minutes(t))
  }

  /** The `T${hours}:${minutes}` tail. */
  function Clock(h: nat, m: nat): string {
    "T" + Pad2(h) + ":" + Pad2(m)
  }

  /** Hours and minutes below 100 give a six-character tail that determines
      them. */
  lemma ClockInjective(h1: nat, m1: nat, h2: nat, m2: nat)
    requires h1 < 100 && m1 < 100 && h2 < 100 && m2 < 100
    ensures |Clock(h1, m1)| == 6
    ensures Clock(h1, m1) == Clock(h2, m2) ==> h1 == h2 && m1 == m2
  {
    Pad2Digits(h1);
    Pad2Digits(h2);
    Pad2Digits(m1);
    Pad2Digits(m2);
    if Clock(h1, m1) == Clock(h2, m2) {
      assert Clock(h1, m1)[1..3] == Pad2(h1) && Clock(h2, m2)[1..3] == Pad2(h2);
      assert Clock(h1, m1)[4..] == Pad2(m1) && Clock(h2, m2)[4..] == Pad2(m2);
      Pad2Injective(h1, h2);
      Pad2Injective(m1, m2);
    }
  }

  lemma ClockRange(t: Instant)
    ensures Hours(t) < 24 && Minutes(t) < 60
  {
  }

  /** `getHours()` and `getMinutes()`. */
  function Hours(t: Instant): nat { t.ms / 3600000 }
  function Minutes(t: Instant): nat { t.ms / 60000 % 60 }

  /** The rendered text ends with the fixed-width `-MM-DDTHH:mm`; the year
      in front is printed in full. */
  lemma FormatDateInputShape(t: Instant)
    ensures var r := FormatDateInput(t);
      var d := t.date;
      && |r| == |IntToString(d.year)| + 12
      && r[..|r| - 12] == IntToString(d.year)
      && r[|r| - 12..] == ['-', DigitChar(d.month / 10), DigitChar(d.month % 10),
                           '-', DigitChar(d.day / 10), DigitChar(d.day % 10),
                           'T', DigitChar(Hours(t) / 10), DigitChar(Hours(t) % 10),
                           ':', DigitChar(Minutes(t) / 10), DigitChar(Minutes(t) % 10)]
  {
    ClockRange(t);
    hide IntToString, Hours, Minutes, DigitChar, Pad2, NatToString;
    var d := t.date;
    Pad2Digits(d.month);
    Pad2Digits(d.day);
    Pad2Digits(Hours(t));
    Pad2Digits(Minutes(t));
    var y := IntToString(d.year);
    var tail := "-" + Pad2(d.month) + ("-" + Pad2(d.day)) + Clock(Hours(t), Minutes(t));
    assert FormatDateInput(t) == y + tail;
    assert (y + tail)[..|y|] == y && (y + tail)[|y|..] == tail;
  }

  /** The text determines the day and the minute: two instants render alike
      exactly when they fall on the same day in the same minute. */
  lemma FormatDateInputInjective(a: Instant, b: Instant)
    ensures FormatDateInput(a) == FormatDateInput(b)
        <==> a.date == b.date && Hours(a) == Hours(b) && Minutes(a) == Minutes(b)
  {
    if FormatDateInput(a) == FormatDateInput(b) {
      ClockRange(a);
      ClockRange(b);
      ClockInjective(Hours(a), Minutes(a), Hours(b), Minutes(b));
      ClockInjective(Hours(b), Minutes(b), Hours(a), Minutes(a));
      SplitEqual(DateKey(a.date), Clock(Hours(a), Minutes(a)), DateKey(b.date), Clock(Hours(b), Minutes(b)));
      DateKeyInjective(a.date, b.date);
      ClockInjective(Hours(a), Minutes(a), Hours(b), Minutes(b));
    }
  }

  /** What `formatDateInput` accepts: a `Date`, or a string handed to
      `new Date`. */
  datatype DateArg = AsDate(t: Instant) | AsText(s: string)

  /** What every getter of an invalid `Date` gives, rendered. */
  const InvalidDateInput: string := "NaN-NaN-NaNTNaN:NaN"

  /** `formatDateInput` on either argument: `parseDate` stands for
      `new Date(date)` on a string, `None` being an invalid date, whose
      getters all give `NaN`. */
  function FormatDateInputOf(arg: DateArg, parseDate: string -> Option<Instant>): string {
    match arg
    case AsDate(t) => FormatDateInput(t)
    case AsText(s) =>
      match parseDate(s)
      case Some(t) => FormatDateInput(t)
      case None => InvalidDateInput
  }

  /** The rendering of a real instant ends in a digit. */
  lemma FormatDateInputEndsInDigit(t: Instant)
    ensures var r := FormatDateInput(t); |r| > 0 && IsDigit(r[|r| - 1])
  {
    FormatDateInputShape(t);
    var r := FormatDateInput(t);
    assert r[|r| - 1] == r[|r| - 12..][11];
  }

  /** The `NaN` text comes out exactly for a string the parser rejects; a
      `Date` or a parsable string always renders as a real date. */
  lemma FormatDateInputOfInvalid(arg: DateArg, parseDate: string -> Option<Instant>)
    ensures FormatDateInputOf(arg, parseDate) == InvalidDateInput
        <==> arg.AsText? && parseDate(arg.s).None?
  {
    var r := FormatDateInputOf(arg, parseDate);
    if !(arg.AsText? && parseDate(arg.s).None?) {
      var t := if arg.AsDate? then arg.t else parseDate(arg.s).value;
      assert r == FormatDateInput(t);
      FormatDateInputEndsInDigit(t);
      assert InvalidDateInput[|InvalidDateInput| - 1] == 'N';
    }
  }

  /** The `{ start, end }` pair of `getCurrentMonthRange`. */
  datatype MonthRange = MonthRange(start: Instant, end: Instant)

  /** `start = new Date(y, mi, 1)` and
      `end = new Date(y, mi + 1, 0, 23, 59, 59, 999)` for the year and month
      index of `now`. */
  function GetCurrentMonthRange(now: Instant): (r: MonthRange)
    ensures var k := JsYear(now.date.year) * 12 + now.date.month - 1;
      && r.start == StartOfDay(FirstOfMonth(k))
      && r.end == EndOfDay(LastOfMonth(k))
  {
    var y, mi := now.date.year, now.date.month - 1;
    MakeDateFirst(y, mi);
    MakeDateLast(y, mi);
    MonthRange(StartOfDay(MakeDate(y, mi, 1)), EndOfDay(MakeDate(y, mi + 1, 0)))
  }

  /** Both ends lie in the same month, the start on its 1st at midnight and
      the end on its last day (day 0 of the next month, leap years
      included) one millisecond before midnight; so `start < end`. */
  lemma MonthRangeBounds(now: Instant)
    ensures var r := GetCurrentMonthRange(now);
      && r.start.date.year == r.end.date.year
      && r.start.date.month == r.end.date.month
      && r.start.date.day == 1 && r.start.ms == 0
      && r.end.date.day == DaysInMonth(r.end.date.year, r.end.date.month)
      && r.end.ms == 86399999
      && InstantLt(r.start, r.end)
  {
    var k := JsYear(now.date.year) * 12 + now.date.month - 1;
    var f, l := FirstOfMonth(k), LastOfMonth(k);
    assert f.year == l.year && f.month == l.month;
    assert Ordinal(f) <= Ordinal(l);
  }

  /** Outside the years 0..99 (which the `Date` constructor moves to the
      1900s) the range is the month of `now` and contains `now`. */
  lemma MonthRangeHoldsNow(now: Instant)
    requires !(0 <= now.date.year <= 99)
    ensures var r := GetCurrentMonthRange(now);
      && r.start.date.year == now.date.year && r.start.date.month == now.date.month
      && InstantLe(r.start, now) && InstantLe(now, r.end)
  {
    var k := now.date.year * 12 + now.date.month - 1;
    var r := GetCurrentMonthRange(now);
    DivMod12(k, now.date.year, now.date.month - 1);
    OrdinalByMonth(now.date);
    OrdinalByMonth(r.start.date);
    OrdinalByMonth(r.end.date);
    StartOfDayLe(r.start.date, now);
    LeEndOfDay(now, r.end.date);
  }
}

/** The pure helpers of the dashboard charts: the abbreviated axis values,
    the `M/D` date ticks, the short month labels of the trend bars, the
    legend of the spending chart and the percentage change of the balance
    trend. */
module Charts {
  import opened Common
  import opened Seqs
  import opened Text
  import opened Calendar
  import opened DashboardTrend

  // ---- formatAbbreviated ----

  function Abs(v: int): nat {
    if v < 0 then -v else v
  }

  const Thousand: nat := 1000
  const Million: nat := 1000000

  /** The tenths of `m / unit`, rounded to the nearest, halves up. */
  function Tenths(m: nat, unit: nat): nat
    requires unit > 0
  {
    (20 * m + unit) / (2 * unit)
  }

  /** The rounding is to the nearest tenth: `Tenths(m, unit) / 10` is within
      half a tenth of `m / unit`. */
  lemma TenthsNearest(m: nat, unit: nat)
    requires unit > 0
    ensures var n := Tenths(m, unit);
      (2 * n - 1) * unit <= 20 * m < (2 * n + 1) * unit
  {
    var n, r := (20 * m + unit) / (2 * unit), (20 * m + unit) % (2 * unit);
    assert 20 * m + unit == n * (2 * unit) + r && 0 <= r < 2 * unit;
    assert (2 * n - 1) * unit == n * (2 * unit) - unit;
    assert (2 * n + 1) * unit == n * (2 * unit) + unit;
  }

  /** `(v / unit).toFixed(1)`: the sign, the whole part and one decimal. */
  function Fixed1(v: int, unit: nat): string
    requires unit > 0
  {
    var n := Tenths(Abs(v), unit);
    (if v < 0 then "-" else "") + NatToString(n / 10) + "." + [DigitChar(n % 10)]
  }

  /** `formatAbbreviated` on an axis value: millions with "M", thousands
      with "K", smaller values as they are (`toFixed(0)` of a whole
      number). */
  function FormatAbbreviated(v: int): string {
    if Abs(v) >= Million then Fixed1(v, Million) + "M"
    else if Abs(v) >= Thousand then Fixed1(v, Thousand) + "K"
    else IntToString(v)
  }

  /** The suffix is "M" exactly from a million up, "K" exactly from a
      thousand below a million, and there is none below a thousand, where
      the text is the number itself. */
  lemma AbbreviatedSuffix(v: int)
    ensures var s := FormatAbbreviated(v);
      && |s| >= 1
      && (s[|s| - 1] == 'M' <==> Abs(v) >= 1000000)
      && (s[|s| - 1] == 'K' <==> 1000 <= Abs(v) < 1000000)
      && (Abs(v) < 1000 ==> IsDigit(s[|s| - 1]) && s == IntToString(v))
  {
    if Abs(v) < Thousand {
      if v < 0 {
        NatToStringDigits(-v);
        assert IntToString(v) == "-" + NatToString(-v);
      } else {
        NatToStringDigits(v);
      }
    }
  }

  /** An abbreviated value reads as the value in thousands or millions to
      the nearest tenth: `whole.tenth` times the unit is within half a
      tenth of the unit of `|v|`. */
  lemma AbbreviatedNearest(v: int)
    requires Abs(v) >= 1000
    ensures var unit := if Abs(v) >= 1000000 then 1000000 else 1000;
      var n := Tenths(Abs(v), unit);
      && FormatAbbreviated(v) ==
           (if v < 0 then "-" else "") + NatToString(n / 10) + "." + [DigitChar(n % 10)]
             + (if unit == 1000000 then "M" else "K")
      && (2 * n - 1) * unit <= 20 * Abs(v) < (2 * n + 1) * unit
  {
    var unit := if Abs(v) >= Million then Million else Thousand;
    TenthsNearest(Abs(v), unit);
  }

  /** Just below a million the rounding carries into a four-digit
      thousand: 999999 is shown as "1000.0K", not "1.0M". */
  lemma AbbreviatedCarry()
    ensures FormatAbbreviated(999999) == "1000.0K"
  {
    assert Tenths(999999, Thousand) == 10000;
    assert NatToString(1000) == NatToString(100) + [DigitChar(0)];
    assert NatToString(100) == NatToString(10) + [DigitChar(0)];
    assert NatToString(10) == NatToString(1) + [DigitChar(0)];
  }

  // ---- formatDateTick ----

  /** `parseInt` shown as text: "NaN" when no number is found. */
  function ShowParsed(r: Option<int>): string {
    match r
    case None => "NaN"
    case Some(n) => IntToString(n)
  }

  /** Element `i` of a destructured array, `undefined` (which `parseInt`
      reads as the text "undefined") past its end. */
  function PartOr(parts: seq<string>, i: nat): string {
    if i < |parts| then parts[i] else Undefined
  }

  const Undefined := "undefined"

  /** `parseInt(undefined)` is `NaN`. */
  lemma UndefinedIsNaN()
    ensures ParseInt(Undefined) == None
  {
    hide PrefixWhile;
    assert TrimStart(Undefined) == Undefined;
    assert !IsDigit(Undefined[0]);
  }

  /** `formatDateTick`: the second and third `-`-separated parts read as
      numbers and joined by a slash. */
  function FormatDateTick(s: string): string {
    var parts := Split(s, '-');
    ShowParsed(ParseInt(PartOr(parts, 1))) + "/" + ShowParsed(ParseInt(PartOr(parts, 2)))
  }

  /** A two-digit day or month reads back as its value. */
  lemma ParsePad2(n: nat)
    requires n < 100
    ensures ParseInt(Pad2(n)) == Some(n)
  {
    hide ParseInt;
    Pad2Digits(n);
    var p := Pad2(n);
    assert AllDigits(p);
    ParseIntOfDigits(p);
    assert p[..1] == [DigitChar(n / 10)] && p[..1][..0] == [];
    assert DigitsValue(p) == DigitsValue(p[..1]) * 10 + DigitValue(p[1]);
  }

  /** The tick of a day key `YYYY-MM-DD` is the month and the day without
      leading zeros, `M/D`. */
  lemma DateTickOfKey(d: CivilDate)
    requires d.year >= 0
    ensures FormatDateTick(DateKey(d)) == NatToString(d.month) + "/" + NatToString(d.day)
  {
    hide ParseInt, Split, NatToString, Pad2;
    var y, m, dd := NatToString(d.year), Pad2(d.month), Pad2(d.day);
    NatToStringDigits(d.year);
    Pad2Digits(d.month);
    Pad2Digits(d.day);
    assert '-' !in y by {
      forall i | 0 <= i < |y| ensures y[i] != '-' { assert IsDigit(y[i]); }
    }
    assert '-' !in m && '-' !in dd;
    assert DateKey(d) == y + ['-'] + (m + ['-'] + dd);
    SplitAtFirst(y, m + ['-'] + dd, '-');
    SplitAtFirst(m, dd, '-');
    SplitWithoutSeparator(dd, '-');
    var parts := Split(DateKey(d), '-');
    assert parts == [y, m, dd];
    ParsePad2(d.month);
    ParsePad2(d.day);
  }

  /** Text without a dash has no second part: the tick is "NaN/NaN". */
  lemma DateTickWithoutDash(s: string)
    requires '-' !in s
    ensures FormatDateTick(s) == "NaN/NaN"
  {
    hide ParseInt, Split;
    SplitWithoutSeparator(s, '-');
    UndefinedIsNaN();
  }

  // ---- Trend bar labels ----

  /** `item.month.split(" ")[0]`. */
  function TrendLabel(month: string): (r: string)
    ensures ' ' !in r
  {
    Split(month, ' ')[0]
  }

  /** The label is the month label up to its first space: a prefix with no
      space, followed by a space unless it is the whole label. */
  lemma {:induction false} TrendLabelPrefix(month: string)
    ensures var r := TrendLabel(month);
      && |r| <= |month| && r == month[..|r|]
      && (|r| == |month| || month[|r|] == ' ')
    decreases |month|
  {
    if |month| > 0 && month[0] != ' ' {
      TrendLabelPrefix(month[1..]);
      assert TrendLabel(month) == [month[0]] + TrendLabel(month[1..]);
    }
  }

  /** The bar of a dashboard trend month is labelled with the month's
      short name alone. */
  lemma TrendLabelOfMonth(k: int)
    ensures TrendLabel(MonthLabel(k)) == MonthNames[FirstOfMonth(k).month - 1]
  {
    var name := MonthNames[FirstOfMonth(k).month - 1];
    assert ' ' !in name;
    assert MonthLabel(k) == name + [' '] + IntToString(FirstOfMonth(k).year);
    SplitAtFirst(name, IntToString(FirstOfMonth(k).year), ' ');
  }

  // ---- Spending legend ----

  const LegendSize: nat := 5

  /** The legend: the first five entries and how many are left out. */
  datatype Legend<T> = Legend(shown: seq<T>, hidden: nat)

  function LegendOf<T>(data: seq<T>): Legend<T> {
    var n := Min(LegendSize, |data|);
    Legend(data[..n], |data| - n)
  }

  /** `+{data.length - 5} more`, present only when something is left
      out. */
  function MoreLine<T>(l: Legend<T>): Option<string> {
    if l.hidden > 0 then Some("+" + NatToString(l.hidden) + " more") else None
  }

  /** The legend shows the data's first entries, at most five, and the
      count left out makes up the rest; the "more" line appears exactly
      when there are more than five entries. */
  lemma LegendSplit<T>(data: seq<T>)
    ensures var l := LegendOf(data);
      && |l.shown| <= 5
      && l.shown + data[|l.shown|..] == data
      && |l.shown| + l.hidden == |data|
      && (l.hidden > 0 <==> |data| > 5)
      && (MoreLine(l).Some? <==> |data| > 5)
  {
  }

  /** The "more" line reads back as the number of entries left out. */
  lemma MoreLineCount<T>(data: seq<T>)
    requires |data| > 5
    ensures var line := MoreLine(LegendOf(data)).value;
      && line[0] == '+'
      && ParseInt(line[1..]) == Some(|data| - 5)
  {
    var n: nat := |data| - 5;
    var digits := NatToString(n);
    var line := MoreLine(LegendOf(data)).value;
    assert line[1..] == digits + " more";
    NatToStringDigits(n);
    NatToStringRoundTrip(n);
    PrefixWhileStops(digits, " more", IsDigit);
    TrimStartOfDigits(digits + " more");
  }

  /** The longest prefix stops at the first character that fails. */
  lemma {:induction false} PrefixWhileStops(s: string, t: string, ok: char -> bool)
    requires forall i :: 0 <= i < |s| ==> ok(s[i])
    requires |t| > 0 && !ok(t[0])
    ensures PrefixWhile(s + t, ok) == s
    decreases |s|
  {
    if |s| > 0 {
      assert (s + t)[1..] == s[1..] + t;
      PrefixWhileStops(s[1..], t, ok);
    } else {
      assert s + t == t;
    }
  }

  // ---- Balance change ----

  /** A percentage as an exact fraction `num / den`. */
  datatype Pct = Pct(num: int, den: nat)

  /** `pctChange` over the balances of the trend (`None` for no data, when
      the chart is not drawn): the change relative to the first balance,
      or 100, -100 or 0 after the sign of the last balance when the first
      is zero. */
  function PctChange(balances: seq<int>): (r: Option<Pct>)
    ensures r.Some? ==> r.value.den > 0
  {
    if |balances| == 0 then None
    else
      var start, current := balances[0], balances[|balances| - 1];
      if start != 0 then Some(Pct((current - start) * 100, Abs(start)))
      else Some(Pct(if current > 0 then 100 else if current < 0 then -100 else 0, 1))
  }

  /** The badge colour of the change. */
  datatype Badge = Up | Down | Flat

  function BadgeOf(p: Pct): Badge {
    if p.num > 0 then Up else if p.num < 0 then Down else Flat
  }

  /** The sign shown before the figure: "+" for a change of zero or
      more. */
  function SignPrefix(p: Pct): string {
    if p.num >= 0 then "+" else ""
  }

  /** The badge says whether the balance rose, fell or stayed against the
      first day; from a zero start it follows the sign of the last
      balance. */
  lemma PctSign(balances: seq<int>)
    requires |balances| > 0
    ensures var start, current, p := balances[0], balances[|balances| - 1], PctChange(balances).value;
      && (BadgeOf(p) == Up <==> (start != 0 && current > start) || (start == 0 && current > 0))
      && (BadgeOf(p) == Down <==> (start != 0 && current < start) || (start == 0 && current < 0))
      && (BadgeOf(p) == Flat <==> current == start)
      && (SignPrefix(p) == "+" <==> BadgeOf(p) != Down)
  {
  }

  /** From a non-zero start, the percentage gives the last balance back:
      the first balance plus that percentage of its size. */
  lemma PctRecoversCurrent(balances: seq<int>)
    requires |balances| > 0 && balances[0] != 0
    ensures var start, p := balances[0], PctChange(balances).value;
      && p.den == Abs(start)
      && start + p.num * Abs(start) / (100 * p.den) == balances[|balances| - 1]
  {
    var start, current := balances[0], balances[|balances| - 1];
    var a := Abs(start);
    assert (current - start) * 100 * a == (current - start) * (100 * a);
    MulDivCancel(current - start, 100 * a);
  }

  lemma MulDivCancel(x: int, k: int)
    requires k > 0
    ensures (x * k) / k == x
  {
    var q, r := (x * k) / k, (x * k) % k;
    assert x * k == q * k + r && 0 <= r < k;
    assert (x - q) * k == r;
    ProductSign(x - q, k);
  }
}

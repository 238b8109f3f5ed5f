/** The amount field of the transaction form: every keystroke is cleaned to
    digits and dots, refused when it would make more than one decimal point
    or more than two decimals, and otherwise shown with the integer part
    grouped in threes by commas. */
module AmountInput {
  import opened Common
  import opened Seqs
  import opened Text

  /** The characters `/[^0-9.]/g` leaves alone. */
  predicate IsAmountChar(c: char) {
    IsDigit(c) || c == '.'
  }

  /** `value.replace(/[^0-9.]/g, "")`. */
  function Sanitize(s: string): string {
    Filter(s, IsAmountChar)
  }

  /** The raw text keeps exactly the digits and dots of the input, each as
      often as it occurs and in order, so cleaning it again changes
      nothing. */
  lemma SanitizeKeeps(s: string, c: char)
    ensures forall i :: 0 <= i < |Sanitize(s)| ==> IsAmountChar(Sanitize(s)[i])
    ensures multiset(Sanitize(s))[c] == if IsAmountChar(c) then multiset(s)[c] else 0
    ensures Sanitize(Sanitize(s)) == Sanitize(s)
  {
    FilterCount(s, IsAmountChar, c);
    FilterKeepsAll(Sanitize(s), IsAmountChar);
  }

  /** `intPart.replace(/\B(?=(\d{3})+(?!\d))/g, ",")` on a run of digits: a
      comma goes before every complete group of three counted from the
      right, never in front. */
  function Group(d: string): (r: string)
    decreases |d|
  {
    if |d| <= 3 then d else Group(d[..|d| - 3]) + [','] + d[|d| - 3..]
  }

  /** `display.replace(/,/g, "")`. */
  function RemoveCommas(s: string): string {
    Filter(s, (c: char) => c != ',')
  }

  /** The groups between commas: a leading group of one to three
      characters, then groups of exactly three. */
  predicate Grouped(parts: seq<string>) {
    && |parts| >= 1
    && 1 <= |parts[0]| <= 3
    && forall i :: 1 <= i < |parts| ==> |parts[i]| == 3
  }

  /** Grouping a non-empty comma-free text cuts it into groups of three
      from the right, and adds nothing but commas: removing them gives the
      text back, and a character that is not a comma in the text is not
      one in the result. */
  lemma {:induction false} GroupShape(d: string)
    requires ',' !in d
    ensures |d| >= 1 ==> Grouped(Split(Group(d), ','))
    ensures RemoveCommas(Group(d)) == d
    ensures forall c :: c != ',' && c !in d ==> c !in Group(d)
    decreases |d|
  {
    hide Filter, Split;
    var notComma := (c: char) => c != ',';
    if |d| <= 3 {
      SplitWithoutSeparator(d, ',');
      FilterKeepsAll(d, notComma);
    } else {
      var pre, last := d[..|d| - 3], d[|d| - 3..];
      assert d == pre + last;
      GroupShape(pre);
      SplitAtLast(Group(pre), last, ',');
      FilterConcat(Group(pre) + [','], last, notComma);
      FilterSnoc(Group(pre), ',', notComma);
      FilterKeepsAll(last, notComma);
    }
  }

  /** What one keystroke does: `None` when the change is refused and the
      display stays as it was, otherwise the new display. */
  function AmountChange(input: string): Option<string> {
    Display(Sanitize(input))
  }

  /** The display of the cleaned text `raw`, or `None` when it is refused. */
  function Display(raw: string): Option<string> {
    var parts := Split(raw, '.');
    if |parts| > 2 then None
    else if |parts| == 2 && |parts[1]| > 2 then None
    else Some(Group(parts[0]) + (if |parts| > 1 then "." + parts[1] else ""))
  }

  /** The text up to the first dot and the text after it, when there is
      exactly one dot. */
  lemma OneDot(raw: string)
    requires CountChar(raw, '.') == 1
    ensures var parts := Split(raw, '.');
      && raw == parts[0] + "." + parts[1]
      && raw[|parts[0]|] == '.'
      && forall i :: 0 <= i < |raw| && raw[i] == '.' ==> i == |parts[0]|
  {
    var parts := Split(raw, '.');
    JoinSplit(raw, '.');
    assert Join(parts, '.') == parts[0] + ['.'] + Join(parts[1..], '.');
    assert raw == parts[0] + "." + parts[1];
    forall i | 0 <= i < |raw| && raw[i] == '.'
      ensures i == |parts[0]|
    {
    }
  }

  /** A keystroke is refused exactly when the cleaned text holds a second
      decimal point, or more than two characters after its only one. */
  lemma AmountRejects(input: string)
    ensures var raw := Sanitize(input);
      AmountChange(input).None? <==>
        CountChar(raw, '.') > 1
        || (CountChar(raw, '.') == 1 && exists i :: 0 <= i < |raw| && raw[i] == '.' && |raw| - i > 3)
  {
    var raw := Sanitize(input);
    if CountChar(raw, '.') == 1 {
      OneDot(raw);
    }
  }

  /** The display of an integer part and a fraction, neither holding a
      comma or a dot. */
  lemma DisplayWithFraction(a: string, frac: string)
    requires ',' !in a && '.' !in a && ',' !in frac && '.' !in frac
    ensures var display := Group(a) + "." + frac;
      && RemoveCommas(display) == a + "." + frac
      && Split(display, '.') == [Group(a), frac]
  {
    hide Filter, Split, Group;
    var notComma := (c: char) => c != ',';
    GroupShape(a);
    assert Group(a) + "." + frac == Group(a) + ['.'] + frac;
    SplitAtFirst(Group(a), frac, '.');
    SplitWithoutSeparator(frac, '.');
    FilterConcat(Group(a) + ['.'], frac, notComma);
    FilterSnoc(Group(a), '.', notComma);
    FilterKeepsAll(frac, notComma);
  }

  /** The cleaned text holds no comma. */
  lemma SanitizeNoComma(input: string)
    ensures ',' !in Sanitize(input)
  {
    SanitizeKeeps(input, ',');
  }

  /** The display of a comma-free text, when accepted, round-trips. */
  lemma DisplayRoundTrip(raw: string)
    requires ',' !in raw && Display(raw).Some?
    ensures var display := Display(raw).value;
      && RemoveCommas(display) == raw
      && Split(display, '.')[1..] == Split(raw, '.')[1..]
      && (|Split(raw, '.')[0]| >= 1 ==> Grouped(Split(Split(display, '.')[0], ',')))
  {
    var parts := Split(raw, '.');
    CountCharZero(raw, '.');
    if CountChar(raw, '.') == 0 {
      DisplayNoDot(raw);
      GroupShape(raw);
      SplitWithoutSeparator(Group(raw), '.');
    } else {
      SplitKeepsOut(raw, '.', ',');
      OneDot(raw);
      DisplayOneDot(raw);
      GroupShape(parts[0]);
      DisplayWithFraction(parts[0], parts[1]);
    }
  }

  /** Without a dot the display is the grouped text alone. */
  lemma DisplayNoDot(raw: string)
    requires '.' !in raw
    ensures Split(raw, '.') == [raw]
    ensures Display(raw) == Some(Group(raw))
  {
    SplitWithoutSeparator(raw, '.');
    assert Group(raw) + "" == Group(raw);
  }

  /** With one dot the display is the grouped integer part, the dot and
      the fraction. */
  lemma DisplayOneDot(raw: string)
    requires CountChar(raw, '.') == 1 && Display(raw).Some?
    ensures var parts := Split(raw, '.');
      Display(raw).value == Group(parts[0]) + "." + parts[1]
  {
    var parts := Split(raw, '.');
    assert Group(parts[0]) + ("." + parts[1]) == Group(parts[0]) + "." + parts[1];
  }

  /** An accepted display has the cleaned text's fraction verbatim after
      its dot, its integer part grouped in threes, and gives the cleaned
      text back once the commas are removed. */
  lemma AmountDisplay(input: string)
    requires AmountChange(input).Some?
    ensures var raw, display := Sanitize(input), AmountChange(input).value;
      && RemoveCommas(display) == raw
      && Split(display, '.')[1..] == Split(raw, '.')[1..]
      && (|Split(raw, '.')[0]| >= 1 ==> Grouped(Split(Split(display, '.')[0], ',')))
  {
    SanitizeNoComma(input);
    DisplayRoundTrip(Sanitize(input));
  }
}

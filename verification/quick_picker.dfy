/** The quick-category picker: a selection of at most four category ids,
    kept in the order they were picked, that a tap toggles. */
module QuickPicker {
  import opened Common
  import opened Seqs

  /** `MAX_QUICK_CATEGORIES`. */
  const MaxQuick: nat := 4

  /** `s.indexOf(x)`: the first position holding `x`, or -1. */
  function IndexOf(s: seq<string>, x: string): (i: int)
    ensures -1 <= i < |s|
    ensures i == -1 <==> x !in s
    ensures 0 <= i ==> s[i] == x && x !in s[..i]
  {
    match FirstWhere(s, (y: string) => y == x)
    case None => -1
    case Some(i) => assert forall k :: 0 <= k < i ==> s[..i][k] == s[k]; i
  }

  /** `toggleCategory`: a selected id is removed and the others shift down;
      an unselected id is appended unless the selection is full, in which
      case nothing changes. */
  function Toggle(prev: seq<string>, id: string): seq<string> {
    if IndexOf(prev, id) != -1 then Filter(prev, (i: string) => i != id)
    else if |prev| >= MaxQuick then prev
    else prev + [id]
  }

  /** `isFull`. */
  predicate IsFull(selected: seq<string>) {
    |selected| >= MaxQuick
  }

  /** `isDisabled` for the button of category `id`. */
  predicate IsDisabled(selected: seq<string>, id: string) {
    IndexOf(selected, id) == -1 && IsFull(selected)
  }

  /** The order badge of category `id`: `order + 1`, shown only when the
      category is selected. */
  function Badge(selected: seq<string>, id: string): Option<int> {
    var order := IndexOf(selected, id);
    if order != -1 then Some(order + 1) else None
  }

  /** A valid selection: no id twice and at most four of them. */
  predicate Valid(selected: seq<string>) {
    Distinct(selected) && |selected| <= MaxQuick
  }

  /** Removing the only occurrence of `x` from a duplicate-free sequence
      cuts it out at its position and keeps everything else in order. */
  lemma {:induction false} FilterOutDistinct(s: seq<string>, x: string, i: nat)
    requires Distinct(s) && i < |s| && s[i] == x
    ensures Filter(s, (y: string) => y != x) == s[..i] + s[i + 1..]
    decreases |s|
  {
    var n := |s| - 1;
    if i < n {
      FilterOutDistinct(s[..n], x, i);
      assert s[..n][..i] == s[..i];
      assert s[..n][i + 1..] + [s[n]] == s[i + 1..];
    } else {
      FilterKeepsAll(s[..n], (y: string) => y != x);
    }
  }

  /** Tapping a selected id removes it from its place and keeps the others
      in their relative order. */
  lemma ToggleRemoves(prev: seq<string>, id: string)
    requires Distinct(prev) && id in prev
    ensures var i := IndexOf(prev, id);
      0 <= i && Toggle(prev, id) == prev[..i] + prev[i + 1..]
    ensures id !in Toggle(prev, id)
  {
    var i := IndexOf(prev, id);
    FilterOutDistinct(prev, id, i);
    assert forall k :: 0 <= k < |prev| && k != i ==> prev[k] != id;
    assert forall k :: 0 <= k < |Toggle(prev, id)| ==> Toggle(prev, id)[k] == (if k < i then prev[k] else prev[k + 1]);
  }

  /** On any stored selection, repeated ids included, tapping a selected id
      removes every copy of it and keeps every other id as often as it
      occurs. */
  lemma ToggleRemovesEvery(prev: seq<string>, id: string, x: string)
    requires id in prev
    ensures id !in Toggle(prev, id)
    ensures x != id ==> multiset(Toggle(prev, id))[x] == multiset(prev)[x]
  {
    FilterCount(prev, (i: string) => i != id, x);
  }

  /** Tapping an unselected id on a selection that is not full appends it;
      on a full selection nothing changes. */
  lemma ToggleAdds(prev: seq<string>, id: string)
    requires id !in prev
    ensures |prev| < MaxQuick ==> Toggle(prev, id) == prev + [id]
    ensures |prev| >= MaxQuick ==> Toggle(prev, id) == prev
  {
  }

  /** A tap never breaks a valid selection. */
  lemma ToggleValid(prev: seq<string>, id: string)
    requires Valid(prev)
    ensures Valid(Toggle(prev, id))
  {
    if id in prev {
      ToggleRemoves(prev, id);
      var i := IndexOf(prev, id);
      var r := Toggle(prev, id);
      assert forall k :: 0 <= k < |r| ==> r[k] == (if k < i then prev[k] else prev[k + 1]);
    }
  }

  /** Any sequence of taps, applied in order. */
  function ToggleAll(selected: seq<string>, taps: seq<string>): seq<string>
    decreases |taps|
  {
    if |taps| == 0 then selected else ToggleAll(Toggle(selected, taps[0]), taps[1..])
  }

  /** Starting from a valid selection, every sequence of taps leaves a valid
      selection. */
  lemma {:induction false} ToggleAllValid(selected: seq<string>, taps: seq<string>)
    requires Valid(selected)
    ensures Valid(ToggleAll(selected, taps))
    decreases |taps|
  {
    if |taps| > 0 {
      ToggleValid(selected, taps[0]);
      ToggleAllValid(Toggle(selected, taps[0]), taps[1..]);
    }
  }

  /** Tapping an unselected id twice on a selection that is not full gives
      the selection back. */
  lemma ToggleTwice(prev: seq<string>, id: string)
    requires id !in prev && |prev| < MaxQuick
    ensures Toggle(Toggle(prev, id), id) == prev
  {
    var once := prev + [id];
    assert IndexOf(once, id) == |prev|;
    FilterKeepsAll(prev, (y: string) => y != id);
    FilterSnoc(prev, id, (y: string) => y != id);
  }

  /** A button is disabled exactly when its category is unselected and the
      selection is full, and then a tap would change nothing. */
  lemma DisabledIsNoop(selected: seq<string>, id: string)
    ensures IsDisabled(selected, id) <==> id !in selected && |selected| >= MaxQuick
    ensures IsDisabled(selected, id) ==> Toggle(selected, id) == selected
  {
  }

  /** A selected category's badge is its 1-based position; on a valid
      selection the badges are 1..4 and tell the categories apart. */
  lemma BadgePosition(selected: seq<string>, a: string, b: string)
    requires Valid(selected)
    ensures Badge(selected, a).Some? <==> a in selected
    ensures Badge(selected, a).Some? ==>
      && 1 <= Badge(selected, a).value <= MaxQuick
      && selected[Badge(selected, a).value - 1] == a
    ensures Badge(selected, a).Some? && Badge(selected, a) == Badge(selected, b) ==> a == b
  {
  }
}

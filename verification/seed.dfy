/** The database seed: fifteen shared default categories, written only when
    no default category exists yet. */
module Seed {
  import opened Common
  import opened Domain
  import opened Text
  import opened Validations
  import Categories

  /** One default category as the seed lists it. */
  datatype SeedEntry = SeedEntry(name: string, kind: TxType, icon: string, color: string)

  /** The ten expense entries, in the seed's order. */
  const ExpenseDefaults: seq<SeedEntry> := [
    SeedEntry("Food & Dining", Expense, "UtensilsCrossed", "#E07C4F"),
    SeedEntry("Transportation", Expense, "Car", "#5B8DEF"),
    SeedEntry("Housing", Expense, "Home", "#8B6FC0"),
    SeedEntry("Utilities", Expense, "Zap", "#F5A623"),
    SeedEntry("Entertainment", Expense, "Film", "#E05B8D"),
    SeedEntry("Shopping", Expense, "ShoppingBag", "#4ECDC4"),
    SeedEntry("Healthcare", Expense, "Heart", "#FF6B6B"),
    SeedEntry("Education", Expense, "GraduationCap", "#45B7D1"),
    SeedEntry("Personal Care", Expense, "Sparkles", "#C8702A"),
    SeedEntry("Other Expense", Expense, "MoreHorizontal", "#8B7E6A")]

  /** The five income entries, in the seed's order. */
  const IncomeDefaults: seq<SeedEntry> := [
    SeedEntry("Salary", Income, "Briefcase", "#2D8B5A"),
    SeedEntry("Freelance", Income, "Laptop", "#45B7D1"),
    SeedEntry("Investments", Income, "TrendingUp", "#8B6FC0"),
    SeedEntry("Side Business", Income, "Store", "#E07C4F"),
    SeedEntry("Other Income", Income, "MoreHorizontal", "#5B8DEF")]

  /** `DEFAULT_CATEGORIES`. */
  const DefaultCategories: seq<SeedEntry> := ExpenseDefaults + IncomeDefaults

  /** The seed lists ten expense categories followed by five income
      categories. */
  lemma SeedKinds()
    ensures |DefaultCategories| == 15
    ensures forall i :: 0 <= i < 10 ==> DefaultCategories[i].kind == Expense
    ensures forall i :: 10 <= i < 15 ==> DefaultCategories[i].kind == Income
  {
    assert forall i :: 0 <= i < 10 ==> DefaultCategories[i] == ExpenseDefaults[i];
    assert forall i :: 10 <= i < 15 ==> DefaultCategories[i] == IncomeDefaults[i - 10];
  }

  /** No two entries of `s` share a name. */
  predicate NamesUnique(s: seq<SeedEntry>) {
    forall i, j :: 0 <= i < j < |s| ==> s[i].name != s[j].name
  }

  /** The first two letters of each expense name. */
  lemma ExpenseInitials()
    ensures ExpenseDefaults[0].name[0] == 'F'
    ensures ExpenseDefaults[1].name[0] == 'T'
    ensures ExpenseDefaults[2].name[0] == 'H' && ExpenseDefaults[2].name[1] == 'o'
    ensures ExpenseDefaults[3].name[0] == 'U'
    ensures ExpenseDefaults[4].name[0] == 'E' && ExpenseDefaults[4].name[1] == 'n'
    ensures ExpenseDefaults[5].name[0] == 'S'
    ensures ExpenseDefaults[6].name[0] == 'H' && ExpenseDefaults[6].name[1] == 'e'
    ensures ExpenseDefaults[7].name[0] == 'E' && ExpenseDefaults[7].name[1] == 'd'
    ensures ExpenseDefaults[8].name[0] == 'P'
    ensures ExpenseDefaults[9].name[0] == 'O'
  {
  }

  /** The expense names differ already in their first two letters. */
  lemma ExpenseNamesUnique()
    ensures NamesUnique(ExpenseDefaults)
  {
    ExpenseInitials();
  }

  lemma IncomeNamesUnique()
    ensures NamesUnique(IncomeDefaults)
  {
    var d := IncomeDefaults;
    assert d[0].name[0] == 'S' && d[0].name[1] == 'a';
    assert d[1].name[0] == 'F' && d[1].name[1] == 'r';
    assert d[2].name[0] == 'I' && d[2].name[1] == 'n';
    assert d[3].name[0] == 'S' && d[3].name[1] == 'i';
    assert d[4].name[0] == 'O' && d[4].name[1] == 't';
  }

  /** No two seed entries of the same type share a name. */
  lemma SeedNamesUnique()
    ensures forall i, j :: 0 <= i < j < |DefaultCategories| && DefaultCategories[i].kind == DefaultCategories[j].kind ==>
      DefaultCategories[i].name != DefaultCategories[j].name
  {
    SeedKinds();
    ExpenseNamesUnique();
    IncomeNamesUnique();
    var d, n := DefaultCategories, |ExpenseDefaults|;
    forall i, j | 0 <= i < j < |d| && d[i].kind == d[j].kind
      ensures d[i].name != d[j].name
    {
      if j < n {
        assert d[i] == ExpenseDefaults[i] && d[j] == ExpenseDefaults[j];
      } else if i >= n {
        assert d[i] == IncomeDefaults[i - n] && d[j] == IncomeDefaults[j - n];
      }
    }
  }

  /** The category body of a seed entry. */
  function BodyOf(e: SeedEntry): map<string, Json> {
    map["name" := JStr(e.name), "type" := JStr(TxTypeName(e.kind)), "icon" := JStr(e.icon), "color" := JStr(e.color)]
  }

  /** Every seed entry would pass the category schema a user's own category
      must pass: a name of 1 to 50 characters, a non-empty icon and a
      `#rrggbb` colour. */
  lemma SeedEntriesValid(emailOk: string -> bool)
    ensures forall i :: 0 <= i < |DefaultCategories| ==>
      Parse(CategorySchema, BodyOf(DefaultCategories[i]), emailOk).Some?
  {
    forall i | 0 <= i < |DefaultCategories|
      ensures Parse(CategorySchema, BodyOf(DefaultCategories[i]), emailOk).Some?
    {
      var e := DefaultCategories[i];
      EntryValid(e, emailOk);
    }
  }

  /** The colour, name and icon of each entry meet the category rules. */
  predicate EntryOk(e: SeedEntry) {
    1 <= |e.name| <= 50 && |e.icon| >= 1 && IsHexColor(e.color)
  }

  lemma EntryValid(e: SeedEntry, emailOk: string -> bool)
    requires e in DefaultCategories
    ensures Parse(CategorySchema, BodyOf(e), emailOk).Some?
  {
    AllEntriesOk();
    CategoryAccepts(BodyOf(e), emailOk);
  }

  lemma AllEntriesOk()
    ensures forall e :: e in DefaultCategories ==> EntryOk(e)
  {
    forall i | 0 <= i < |DefaultCategories|
      ensures EntryOk(DefaultCategories[i])
    {
      var c := DefaultCategories[i].color;
      assert |c| == 7 && c[0] == '#';
      assert forall k :: 1 <= k < 7 ==> IsHexDigit(c[k]);
    }
  }

  /** The `userId: null`, `isDefault: true` row of the `i`th seed entry;
      the ids the database generates are the parameter `newId`. */
  function SeededRow(i: nat, newId: nat -> string): Category
    requires i < |DefaultCategories|
  {
    var e := DefaultCategories[i];
    Category(newId(i), None, e.name, e.kind, e.icon, e.color, true)
  }

  predicate HasDefault(cats: seq<Category>) {
    exists j :: 0 <= j < |cats| && cats[j].isDefault
  }

  /** `main`: skip when any default category exists, otherwise
      `createMany` the fifteen entries. */
  function RunSeed(cats: seq<Category>, newId: nat -> string): seq<Category> {
    if HasDefault(cats) then cats
    else cats + seq(|DefaultCategories|, (i: int) requires 0 <= i < |DefaultCategories| => SeededRow(i, newId))
  }

  /** With a default present the seed changes nothing. */
  lemma SeedSkips(cats: seq<Category>, newId: nat -> string)
    requires HasDefault(cats)
    ensures RunSeed(cats, newId) == cats
  {
  }

  /** Without a default the seed appends exactly the fifteen entries, as
      shared defaults, leaving the existing rows as they were. */
  lemma SeedAdds(cats: seq<Category>, newId: nat -> string)
    requires !HasDefault(cats)
    ensures var r := RunSeed(cats, newId);
      && |r| == |cats| + 15
      && r[..|cats|] == cats
      && forall i :: 0 <= i < 15 ==>
           var c, e := r[|cats| + i], DefaultCategories[i];
           && c.isDefault && c.userId.None? && c.id == newId(i)
           && c.name == e.name && c.kind == e.kind && c.icon == e.icon && c.color == e.color
  {
  }

  /** Seeding twice is seeding once, whatever ids the second run would
      generate. */
  lemma SeedIdempotent(cats: seq<Category>, first: nat -> string, second: nat -> string)
    ensures RunSeed(RunSeed(cats, first), second) == RunSeed(cats, first)
  {
    var r := RunSeed(cats, first);
    if !HasDefault(cats) {
      assert r[|cats|].isDefault;
    }
  }

  /** Seeding a table whose categories clash with no seed entry leaves every
      user's visible categories free of name-and-type duplicates, provided
      they were before. */
  lemma SeedKeepsNoDuplicates(cats: seq<Category>, newId: nat -> string, viewer: string)
    requires Categories.NoVisibleDuplicates(cats, viewer)
    requires forall j, i :: 0 <= j < |cats| && 0 <= i < |DefaultCategories| ==>
      cats[j].name != DefaultCategories[i].name || cats[j].kind != DefaultCategories[i].kind
    ensures Categories.NoVisibleDuplicates(RunSeed(cats, newId), viewer)
  {
    if !HasDefault(cats) {
      SeedNamesUnique();
      var r := RunSeed(cats, newId);
      forall a, b | 0 <= a < b < |r| && Categories.Visible(r[a], viewer) && Categories.Visible(r[b], viewer)
        ensures r[a].name != r[b].name || r[a].kind != r[b].kind
      {
        if b >= |cats| {
          if a >= |cats| {
            assert r[a] == SeededRow(a - |cats|, newId) && r[b] == SeededRow(b - |cats|, newId);
          } else {
            assert r[b] == SeededRow(b - |cats|, newId);
          }
        }
      }
    }
  }
}

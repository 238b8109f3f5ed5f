/** The expense-by-category breakdown: a `Map` keyed by category id that
    keeps insertion order, its values sorted by amount, and each amount's
    share of the month's expenses rounded to a whole percent. */
module DashboardBreakdown {
  import opened Common
  import opened Seqs
  import opened Domain
  import opened Store

  /** One value of `categoryMap`, with the key it is stored under. */
  datatype Group = Group(categoryId: string, name: string, color: string, icon: string, amount: int)

  function GroupAmount(g: Group): int { g.amount }

  /** One element of `categoryBreakdown` (`CategoryBreakdown` in the shared
      types). */
  datatype BreakdownItem = BreakdownItem(name: string, color: string, icon: string, amount: int, percentage: int)

  /** No two groups share a category id. */
  predicate DistinctIds(gs: seq<Group>) {
    forall i, j :: 0 <= i < j < |gs| ==> gs[i].categoryId != gs[j].categoryId
  }

  /** Position of the first row with the given category id, or -1. */
  function FirstIndex(rows: seq<TxWithCategory>, id: string): (r: int)
    ensures -1 <= r < |rows|
    ensures r >= 0 ==> rows[r].tx.categoryId == id && forall k :: 0 <= k < r ==> rows[k].tx.categoryId != id
    ensures r < 0 ==> forall k :: 0 <= k < |rows| ==> rows[k].tx.categoryId != id
    decreases |rows|
  {
    if |rows| == 0 then -1
    else
      var init := rows[..|rows| - 1];
      var r := FirstIndex(init, id);
      if r >= 0 then r
      else if rows[|rows| - 1].tx.categoryId == id then |rows| - 1
      else -1
  }

  /** Reference definition: the summed amount of the rows with category
      `id`, zero when there is none. */
  function CategoryTotal(rows: seq<TxWithCategory>, id: string): (r: int)
    ensures FirstIndex(rows, id) < 0 ==> r == 0
    decreases |rows|
  {
    if |rows| == 0 then 0
    else
      var last := rows[|rows| - 1];
      CategoryTotal(rows[..|rows| - 1], id) + (if last.tx.categoryId == id then last.tx.amount else 0)
  }

  /** `categoryMap.get(id)`: the position of the group with that key, or -1. */
  function FindGroup(gs: seq<Group>, id: string): (r: int)
    ensures -1 <= r < |gs|
    ensures r >= 0 ==> gs[r].categoryId == id
    ensures r < 0 ==> forall j :: 0 <= j < |gs| ==> gs[j].categoryId != id
    decreases |gs|
  {
    if |gs| == 0 then -1
    else if gs[0].categoryId == id then 0
    else
      var r := FindGroup(gs[1..], id);
      if r < 0 then -1 else r + 1
  }

  /** One iteration of the loop: add to the existing group, or append a new
      one named, coloured and iconed after this row's category. */
  function AddRow(gs: seq<Group>, row: TxWithCategory): seq<Group> {
    var i := FindGroup(gs, row.tx.categoryId);
    if i >= 0 then gs[i := gs[i].(amount := gs[i].amount + row.tx.amount)]
    else gs + [Group(row.tx.categoryId, row.category.name, row.category.color, row.category.icon, row.tx.amount)]
  }

  /** A group describes the category of row `k`. */
  predicate Describes(g: Group, row: TxWithCategory) {
    g.name == row.category.name && g.color == row.category.color && g.icon == row.category.icon
  }

  /** What the groups built from `rows` satisfy: they are keyed by
      distinct category ids; every row's category has a group and every
      group's id occurs among the rows; each group carries the name, colour
      and icon of its id's first row and the total of all rows with its
      id. */
  predicate GroupsOf(gs: seq<Group>, rows: seq<TxWithCategory>) {
    && DistinctIds(gs)
    && (forall i :: 0 <= i < |rows| ==> FindGroup(gs, rows[i].tx.categoryId) >= 0)
    && (forall j :: 0 <= j < |gs| ==> FirstIndex(rows, gs[j].categoryId) >= 0)
    && (forall j :: 0 <= j < |gs| ==> Describes(gs[j], rows[FirstIndex(rows, gs[j].categoryId)]))
    && (forall j :: 0 <= j < |gs| ==> gs[j].amount == CategoryTotal(rows, gs[j].categoryId))
  }

  /** The loop over the month's expenses, in order. */
  function GroupByCategory(rows: seq<TxWithCategory>): seq<Group>
    decreases |rows|
  {
    if |rows| == 0 then [] else AddRow(GroupByCategory(rows[..|rows| - 1]), rows[|rows| - 1])
  }

  /** The loop builds exactly the groups of its rows. */
  lemma {:induction false} GroupByCategoryGroups(rows: seq<TxWithCategory>)
    ensures GroupsOf(GroupByCategory(rows), rows)
    decreases |rows|
  {
    if |rows| > 0 {
      hide *;
      var init, last := rows[..|rows| - 1], rows[|rows| - 1];
      GroupByCategoryGroups(init);
      assert init + [last] == rows;
      GroupByCategoryStep(init, last);
    }
  }

  /** The step of `GroupByCategoryGroups`: one more row through `AddRow`. */
  lemma GroupByCategoryStep(init: seq<TxWithCategory>, last: TxWithCategory)
    requires GroupsOf(GroupByCategory(init), init)
    ensures GroupsOf(GroupByCategory(init + [last]), init + [last])
  {
    hide GroupsOf, AddRow;
    assert (init + [last])[..|init|] == init;
    AddRowKeepsGroups(GroupByCategory(init), init, last);
  }

  lemma FirstIndexSnoc(rows: seq<TxWithCategory>, row: TxWithCategory, id: string)
    ensures FirstIndex(rows + [row], id)
         == if FirstIndex(rows, id) >= 0 then FirstIndex(rows, id)
            else if row.tx.categoryId == id then |rows| else -1
    ensures CategoryTotal(rows + [row], id)
         == CategoryTotal(rows, id) + (if row.tx.categoryId == id then row.tx.amount else 0)
  {
    assert (rows + [row])[..|rows|] == rows;
  }

  lemma AddRowKeepsGroups(gs: seq<Group>, rows: seq<TxWithCategory>, row: TxWithCategory)
    requires GroupsOf(gs, rows)
    ensures GroupsOf(AddRow(gs, row), rows + [row])
  {
    if FindGroup(gs, row.tx.categoryId) >= 0 {
      AddToExisting(gs, rows, row);
    } else {
      AddNew(gs, rows, row);
    }
  }

  lemma AddToExisting(gs: seq<Group>, rows: seq<TxWithCategory>, row: TxWithCategory)
    requires GroupsOf(gs, rows)
    requires FindGroup(gs, row.tx.categoryId) >= 0
    ensures GroupsOf(AddRow(gs, row), rows + [row])
  {
    AddToExistingGroups(gs, rows, row);
    AddToExistingCovers(gs, rows, row);
  }

  /** Adding to an existing group keeps every key, first row and
      description, and keeps every amount equal to its category's total. */
  lemma AddToExistingGroups(gs: seq<Group>, rows: seq<TxWithCategory>, row: TxWithCategory)
    requires GroupsOf(gs, rows)
    requires FindGroup(gs, row.tx.categoryId) >= 0
    ensures var gs', rows' := AddRow(gs, row), rows + [row];
      && |gs'| == |gs|
      && (forall j :: 0 <= j < |gs'| ==> gs'[j].categoryId == gs[j].categoryId)
      && (forall j :: 0 <= j < |gs'| ==> FirstIndex(rows', gs'[j].categoryId) >= 0)
      && (forall j :: 0 <= j < |gs'| ==> Describes(gs'[j], rows'[FirstIndex(rows', gs'[j].categoryId)]))
      && (forall j :: 0 <= j < |gs'| ==> gs'[j].amount == CategoryTotal(rows', gs'[j].categoryId))
  {
    var gs', rows' := AddRow(gs, row), rows + [row];
    forall j | 0 <= j < |gs'|
      ensures gs'[j].categoryId == gs[j].categoryId
      ensures FirstIndex(rows', gs'[j].categoryId) >= 0
      ensures Describes(gs'[j], rows'[FirstIndex(rows', gs'[j].categoryId)])
      ensures gs'[j].amount == CategoryTotal(rows', gs'[j].categoryId)
    {
      AddToExistingOne(gs, rows, row, j);
    }
  }

  lemma AddToExistingOne(gs: seq<Group>, rows: seq<TxWithCategory>, row: TxWithCategory, j: nat)
    requires GroupsOf(gs, rows)
    requires FindGroup(gs, row.tx.categoryId) >= 0
    requires j < |gs|
    ensures var gs', rows' := AddRow(gs, row), rows + [row];
      && |gs'| == |gs|
      && gs'[j].categoryId == gs[j].categoryId
      && FirstIndex(rows', gs'[j].categoryId) == FirstIndex(rows, gs[j].categoryId) >= 0
      && Describes(gs'[j], rows'[FirstIndex(rows', gs'[j].categoryId)])
      && gs'[j].amount == CategoryTotal(rows', gs'[j].categoryId)
  {
    hide FirstIndex, CategoryTotal, FindGroup;
    var gs', rows' := AddRow(gs, row), rows + [row];
    var id := row.tx.categoryId;
    var i := FindGroup(gs, id);
    assert gs' == gs[i := gs[i].(amount := gs[i].amount + row.tx.amount)];
    var c := gs[j].categoryId;
    FirstIndexSnoc(rows, row, c);
    assert rows'[FirstIndex(rows, c)] == rows[FirstIndex(rows, c)];
    assert j != i ==> c != id;
  }

  /** After adding to an existing group every row still has a group. */
  lemma AddToExistingCovers(gs: seq<Group>, rows: seq<TxWithCategory>, row: TxWithCategory)
    requires forall k :: 0 <= k < |rows| ==> FindGroup(gs, rows[k].tx.categoryId) >= 0
    requires FindGroup(gs, row.tx.categoryId) >= 0
    ensures var gs', rows' := AddRow(gs, row), rows + [row];
      forall k :: 0 <= k < |rows'| ==> FindGroup(gs', rows'[k].tx.categoryId) >= 0
  {
    var gs', rows' := AddRow(gs, row), rows + [row];
    var i := FindGroup(gs, row.tx.categoryId);
    assert gs' == gs[i := gs[i].(amount := gs[i].amount + row.tx.amount)];
    forall k | 0 <= k < |rows'|
      ensures FindGroup(gs', rows'[k].tx.categoryId) >= 0
    {
      var c := rows'[k].tx.categoryId;
      var m := if k < |rows| then FindGroup(gs, c) else i;
      assert gs'[m].categoryId == c;
    }
  }

  /** A category id without a group does not occur among the rows. */
  lemma NoGroupNoRow(gs: seq<Group>, rows: seq<TxWithCategory>, id: string)
    requires forall i :: 0 <= i < |rows| ==> FindGroup(gs, rows[i].tx.categoryId) >= 0
    requires FindGroup(gs, id) < 0
    ensures FirstIndex(rows, id) < 0
  {
  }

  lemma AddNew(gs: seq<Group>, rows: seq<TxWithCategory>, row: TxWithCategory)
    requires GroupsOf(gs, rows)
    requires FindGroup(gs, row.tx.categoryId) < 0
    ensures GroupsOf(AddRow(gs, row), rows + [row])
  {
    NoGroupNoRow(gs, rows, row.tx.categoryId);
    AddNewDistinct(gs, row);
    AddNewDescribes(gs, rows, row);
    AddNewCovers(gs, rows, row);
  }

  lemma AddNewDistinct(gs: seq<Group>, row: TxWithCategory)
    requires DistinctIds(gs)
    requires FindGroup(gs, row.tx.categoryId) < 0
    ensures DistinctIds(AddRow(gs, row))
  {
    var gs' := AddRow(gs, row);
    forall a, b | 0 <= a < b < |gs'|
      ensures gs'[a].categoryId != gs'[b].categoryId
    {
      assert gs'[a] == gs[a];
    }
  }

  lemma AddNewDescribes(gs: seq<Group>, rows: seq<TxWithCategory>, row: TxWithCategory)
    requires GroupsOf(gs, rows)
    requires FindGroup(gs, row.tx.categoryId) < 0
    requires FirstIndex(rows, row.tx.categoryId) < 0
    ensures var gs', rows' := AddRow(gs, row), rows + [row];
      forall j :: 0 <= j < |gs'| ==>
        && FirstIndex(rows', gs'[j].categoryId) >= 0
        && Describes(gs'[j], rows'[FirstIndex(rows', gs'[j].categoryId)])
        && gs'[j].amount == CategoryTotal(rows', gs'[j].categoryId)
  {
    var gs', rows' := AddRow(gs, row), rows + [row];
    forall j | 0 <= j < |gs'|
      ensures FirstIndex(rows', gs'[j].categoryId) >= 0
      ensures Describes(gs'[j], rows'[FirstIndex(rows', gs'[j].categoryId)])
      ensures gs'[j].amount == CategoryTotal(rows', gs'[j].categoryId)
    {
      FirstIndexSnoc(rows, row, gs'[j].categoryId);
      if j < |gs| {
        assert gs'[j] == gs[j];
        assert rows'[FirstIndex(rows, gs[j].categoryId)] == rows[FirstIndex(rows, gs[j].categoryId)];
      } else {
        assert rows'[|rows|] == row;
      }
    }
  }

  lemma AddNewCovers(gs: seq<Group>, rows: seq<TxWithCategory>, row: TxWithCategory)
    requires forall i :: 0 <= i < |rows| ==> FindGroup(gs, rows[i].tx.categoryId) >= 0
    requires FindGroup(gs, row.tx.categoryId) < 0
    ensures var gs', rows' := AddRow(gs, row), rows + [row];
      forall k :: 0 <= k < |rows'| ==> FindGroup(gs', rows'[k].tx.categoryId) >= 0
  {
    var gs', rows' := AddRow(gs, row), rows + [row];
    forall k | 0 <= k < |rows'|
      ensures FindGroup(gs', rows'[k].tx.categoryId) >= 0
    {
      var c := rows'[k].tx.categoryId;
      var m := if k < |rows| then FindGroup(gs, c) else |gs|;
      assert gs'[m].categoryId == c;
    }
  }

  /** The groups' amounts add up to the rows' amounts. */
  lemma {:induction false} GroupSum(rows: seq<TxWithCategory>)
    ensures Sum(GroupByCategory(rows), GroupAmount) == Sum(rows, Amount)
    decreases |rows|
  {
    if |rows| > 0 {
      var init, last := rows[..|rows| - 1], rows[|rows| - 1];
      var gs := GroupByCategory(init);
      GroupSum(init);
      assert rows == init + [last];
      SumSnoc(init, last, Amount);
      var i := FindGroup(gs, last.tx.categoryId);
      if i >= 0 {
        var g := gs[i].(amount := gs[i].amount + last.tx.amount);
        assert AddRow(gs, last) == gs[i := g];
        SumUpdate(gs, i, g, GroupAmount);
      } else {
        var g := Group(last.tx.categoryId, last.category.name, last.category.color, last.category.icon, last.tx.amount);
        assert AddRow(gs, last) == gs + [g];
        SumSnoc(gs, g, GroupAmount);
      }
    }
  }

  /** With no negative amount, one category's total lies between zero and
      the total of all rows. */
  lemma {:induction false} CategoryTotalBounds(rows: seq<TxWithCategory>, id: string)
    requires forall i :: 0 <= i < |rows| ==> NonNegative(rows[i])
    ensures 0 <= CategoryTotal(rows, id) <= Sum(rows, Amount)
    decreases |rows|
  {
    if |rows| > 0 {
      CategoryTotalBounds(rows[..|rows| - 1], id);
    }
  }

  /** `totalExpenses > 0 ? Math.round((amount / totalExpenses) * 100) : 0`
      computed exactly: the nearest whole percent, halves rounded up. */
  function Percentage(amount: int, total: int): (p: int)
    ensures total <= 0 ==> p == 0
    ensures total > 0 ==> 2 * total * p <= 200 * amount + total < 2 * total * (p + 1)
  {
    if total > 0 then (200 * amount + total) / (2 * total) else 0
  }

  /** A share of a positive total is a whole percent from 0 to 100. */
  lemma PercentageBounds(amount: int, total: int)
    requires 0 <= amount <= total
    ensures 0 <= Percentage(amount, total) <= 100
  {
    var p := Percentage(amount, total);
    if total > 0 {
      var d := 2 * total;
      if p < 0 {
        MulMonotone(d, p + 1, 0);
      } else if p > 100 {
        MulMonotone(d, 101, p);
      }
    }
  }

  lemma MulMonotone(d: int, x: int, y: int)
    requires d >= 0 && x <= y
    ensures d * x <= d * y
  {
    assert d * y - d * x == d * (y - x);
  }

  /** `Array.from(categoryMap.values()).sort((a, b) => b.amount - a.amount)`. */
  function SortedGroups(expenses: seq<TxWithCategory>): (gs: seq<Group>)
    ensures multiset(gs) == multiset(GroupByCategory(expenses))
    ensures SortedDesc(gs, GroupAmount)
  {
    SortDesc(GroupByCategory(expenses), GroupAmount)
  }

  function ToItem(g: Group, total: int): BreakdownItem {
    BreakdownItem(g.name, g.color, g.icon, g.amount, Percentage(g.amount, total))
  }

  function ItemAmount(b: BreakdownItem): int { b.amount }

  /** `categoryBreakdown`: the month's expense rows grouped by category,
      largest amount first, each with its percentage of `totalExpenses`. */
  function Breakdown(monthRows: seq<TxWithCategory>): (items: seq<BreakdownItem>)
    ensures |items| == |SortedGroups(Filter(monthRows, IsExpense))|
    ensures SortedDesc(items, ItemAmount)
  {
    var gs := SortedGroups(Filter(monthRows, IsExpense));
    var total := ExpenseTotal(monthRows);
    seq(|gs|, i requires 0 <= i < |gs| => ToItem(gs[i], total))
  }

  /** In a list with distinct ids, no group occurs twice. */
  lemma {:induction false} DistinctIdsCount(gs: seq<Group>, x: Group)
    requires DistinctIds(gs)
    ensures multiset(gs)[x] <= 1
    decreases |gs|
  {
    if |gs| > 0 {
      var init := gs[..|gs| - 1];
      assert gs == init + [gs[|gs| - 1]];
      DistinctIdsCount(init, x);
      if x == gs[|gs| - 1] {
        assert x !in init;
      }
    }
  }

  /** Two positions holding the same group make it occur twice. */
  lemma SamePositionsTwice(gs: seq<Group>, a: nat, b: nat)
    requires a < b < |gs| && gs[a] == gs[b]
    ensures multiset(gs)[gs[a]] >= 2
  {
    var x := gs[a];
    assert gs == gs[..a] + [x] + gs[a + 1..b] + [x] + gs[b + 1..];
  }

  /** Reordering the groups of `rows` leaves them the groups of `rows`. */
  lemma GroupsOfPermutation(us: seq<Group>, gs: seq<Group>, rows: seq<TxWithCategory>)
    requires GroupsOf(us, rows)
    requires multiset(gs) == multiset(us)
    ensures GroupsOf(gs, rows)
  {
    forall j | 0 <= j < |gs|
      ensures exists k :: 0 <= k < |us| && us[k] == gs[j]
    {
      assert gs[j] in multiset(us);
    }
    forall a, b | 0 <= a < b < |gs|
      ensures gs[a].categoryId != gs[b].categoryId
    {
      var ka :| 0 <= ka < |us| && us[ka] == gs[a];
      var kb :| 0 <= kb < |us| && us[kb] == gs[b];
      if ka == kb {
        SamePositionsTwice(gs, a, b);
        DistinctIdsCount(us, gs[a]);
      }
    }
    forall i | 0 <= i < |rows|
      ensures FindGroup(gs, rows[i].tx.categoryId) >= 0
    {
      var k := FindGroup(us, rows[i].tx.categoryId);
      assert us[k] in multiset(gs);
      var j :| 0 <= j < |gs| && gs[j] == us[k];
    }
  }

  /** The sorted groups are still the groups of the rows. */
  lemma SortedGroupsGroups(expenses: seq<TxWithCategory>)
    ensures GroupsOf(SortedGroups(expenses), expenses)
  {
    GroupByCategoryGroups(expenses);
    GroupsOfPermutation(GroupByCategory(expenses), SortedGroups(expenses), expenses);
  }

  /** Each item is the expense total of a category that has expense rows,
      named after that category's first expense row, and carries its
      rounded share; no category appears twice and every expense row's
      category appears. */
  lemma BreakdownItems(monthRows: seq<TxWithCategory>)
    ensures var expenses := Filter(monthRows, IsExpense);
      var gs := SortedGroups(expenses);
      var items := Breakdown(monthRows);
      && DistinctIds(gs)
      && (forall i :: 0 <= i < |expenses| ==> FindGroup(gs, expenses[i].tx.categoryId) >= 0)
      && (forall j :: 0 <= j < |gs| ==>
            && FirstIndex(expenses, gs[j].categoryId) >= 0
            && items[j] == BreakdownItem(
                 expenses[FirstIndex(expenses, gs[j].categoryId)].category.name,
                 expenses[FirstIndex(expenses, gs[j].categoryId)].category.color,
                 expenses[FirstIndex(expenses, gs[j].categoryId)].category.icon,
                 CategoryTotal(expenses, gs[j].categoryId),
                 Percentage(CategoryTotal(expenses, gs[j].categoryId), ExpenseTotal(monthRows))))
  {
    hide SortedGroups, Percentage, CategoryTotal, FirstIndex, FindGroup, Filter, ExpenseTotal, GroupByCategory;
    var expenses := Filter(monthRows, IsExpense);
    SortedGroupsGroups(expenses);
  }

  lemma {:induction false} ItemSum(gs: seq<Group>, total: int)
    ensures Sum(seq(|gs|, i requires 0 <= i < |gs| => ToItem(gs[i], total)), ItemAmount) == Sum(gs, GroupAmount)
    decreases |gs|
  {
    if |gs| > 0 {
      var n := |gs| - 1;
      var items := seq(|gs|, i requires 0 <= i < |gs| => ToItem(gs[i], total));
      ItemSum(gs[..n], total);
      assert items[..n] == seq(n, i requires 0 <= i < n => ToItem(gs[..n][i], total));
    }
  }

  /** The breakdown's amounts add up to `totalExpenses`. */
  lemma BreakdownSum(monthRows: seq<TxWithCategory>)
    ensures Sum(Breakdown(monthRows), ItemAmount) == ExpenseTotal(monthRows)
  {
    var expenses := Filter(monthRows, IsExpense);
    ItemSum(SortedGroups(expenses), ExpenseTotal(monthRows));
    SortDescSum(GroupByCategory(expenses), GroupAmount, GroupAmount);
    GroupSum(expenses);
  }

  /** With no negative amount, every percentage lies in [0, 100]. */
  lemma BreakdownPercentages(monthRows: seq<TxWithCategory>)
    requires forall i :: 0 <= i < |monthRows| ==> NonNegative(monthRows[i])
    ensures forall j :: 0 <= j < |Breakdown(monthRows)| ==> 0 <= Breakdown(monthRows)[j].percentage <= 100
  {
    var expenses := Filter(monthRows, IsExpense);
    FilterAll(monthRows, IsExpense, NonNegative);
    BreakdownItems(monthRows);
    forall j | 0 <= j < |Breakdown(monthRows)|
      ensures 0 <= Breakdown(monthRows)[j].percentage <= 100
    {
      ItemPercentage(expenses, SortedGroups(expenses)[j].categoryId, ExpenseTotal(monthRows));
    }
  }

  lemma ItemPercentage(expenses: seq<TxWithCategory>, id: string, total: int)
    requires forall i :: 0 <= i < |expenses| ==> NonNegative(expenses[i])
    requires total == Sum(expenses, Amount)
    ensures 0 <= Percentage(CategoryTotal(expenses, id), total) <= 100
  {
    CategoryTotalBounds(expenses, id);
    PercentageBounds(CategoryTotal(expenses, id), total);
  }
}

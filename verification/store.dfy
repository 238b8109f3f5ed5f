/** The transaction table as an in-memory sequence of rows, each joined
    with its category, and the two Prisma reads the routes issue against
    it: `findMany` with a `where` clause and `aggregate` with `_sum`. */
module Store {
  import opened Common
  import opened Seqs
  import opened Calendar
  import opened Domain

  /** A `where` clause over transactions: the owner, an optional type, and
      optional `gte`, `lte` and `lt` bounds on the date. */
  datatype Where = Where(
    userId: string,
    kind: Option<TxType>,
    gte: Option<Instant>,
    lte: Option<Instant>,
    lt: Option<Instant>)

  predicate Matches(w: Where, t: Transaction) {
    && t.userId == w.userId
    && (w.kind.None? || t.kind == w.kind.value)
    && (w.gte.None? || InstantLe(w.gte.value, t.date))
    && (w.lte.None? || InstantLe(t.date, w.lte.value))
    && (w.lt.None? || InstantLt(t.date, w.lt.value))
  }

  /** The `where` clause as a test on joined rows. */
  function MatchTest(w: Where): TxWithCategory -> bool {
    (row: TxWithCategory) => Matches(w, row.tx)
  }

  /** `findMany({ where })` in table order. */
  function FindMany(store: seq<TxWithCategory>, w: Where): (r: seq<TxWithCategory>)
    ensures forall i :: 0 <= i < |r| ==> Matches(w, r[i].tx)
  {
    Filter(store, MatchTest(w))
  }

  /** `findMany` returns each matching row as often as it is stored and no
      other row. */
  lemma FindManyCount(store: seq<TxWithCategory>, w: Where, row: TxWithCategory)
    ensures multiset(FindMany(store, w))[row] == if Matches(w, row.tx) then multiset(store)[row] else 0
  {
    FilterCount(store, MatchTest(w), row);
  }

  lemma FindManySnoc(store: seq<TxWithCategory>, row: TxWithCategory, w: Where)
    ensures FindMany(store + [row], w)
         == FindMany(store, w) + (if Matches(w, row.tx) then [row] else [])
  {
    FilterSnoc(store, row, MatchTest(w));
  }

  /** The instant a row is ordered by in `orderBy: { date: "desc" }`. */
  function DateOrder(row: TxWithCategory): int { InstantKey(row.tx.date) }

  function Amount(row: TxWithCategory): int { row.tx.amount }

  /** `+amount` for income, `-amount` for an expense. */
  function Net(row: TxWithCategory): int { Signed(row.tx) }

  predicate IsIncome(row: TxWithCategory) { row.tx.kind == Income }

  predicate IsExpense(row: TxWithCategory) { row.tx.kind == Expense }

  /** The amount is not negative (every row the routes create). */
  predicate NonNegative(row: TxWithCategory) { row.tx.amount >= 0 }

  /** `aggregate({ where, _sum: { amount: true } })._sum.amount`: `null`
      (here `None`) when no row matches. */
  function AggregateSum(store: seq<TxWithCategory>, w: Where): (r: Option<int>)
    ensures r.None? <==> |FindMany(store, w)| == 0
  {
    var rows := FindMany(store, w);
    if |rows| == 0 then None else Some(Sum(rows, Amount))
  }

  /** `_sum.amount ?? 0` is the sum over the matching rows, an empty sum
      being zero. */
  lemma AggregateOrZero(store: seq<TxWithCategory>, w: Where)
    ensures AggregateSum(store, w).GetOr(0) == Sum(FindMany(store, w), Amount)
  {
  }

  /** `.filter(t => t.type === "INCOME").reduce(+ amount)`. */
  function IncomeTotal(rows: seq<TxWithCategory>): int {
    Sum(Filter(rows, IsIncome), Amount)
  }

  /** `.filter(t => t.type === "EXPENSE").reduce(+ amount)`. */
  function ExpenseTotal(rows: seq<TxWithCategory>): int {
    Sum(Filter(rows, IsExpense), Amount)
  }

  /** The last row adds its amount to the total of its type. */
  lemma TotalsLast(rows: seq<TxWithCategory>)
    requires |rows| > 0
    ensures var init, last := rows[..|rows| - 1], rows[|rows| - 1];
      && IncomeTotal(rows) == IncomeTotal(init) + (if IsIncome(last) then last.tx.amount else 0)
      && ExpenseTotal(rows) == ExpenseTotal(init) + (if IsExpense(last) then last.tx.amount else 0)
  {
    var init, last := rows[..|rows| - 1], rows[|rows| - 1];
    SumSnoc(Filter(init, IsIncome), last, Amount);
    SumSnoc(Filter(init, IsExpense), last, Amount);
  }

  /** Income minus expenses is the signed sum, one row at a time. */
  lemma {:induction false} IncomeMinusExpenses(rows: seq<TxWithCategory>)
    ensures IncomeTotal(rows) - ExpenseTotal(rows) == Sum(rows, Net)
    decreases |rows|
  {
    if |rows| > 0 {
      IncomeMinusExpenses(rows[..|rows| - 1]);
      TotalsLast(rows);
    }
  }

  /** Filtering a query's result by type is the same as putting the type
      into the query (`p` is the type test, `IsIncome` or `IsExpense`). */
  lemma {:induction false} KindFilterIsQuery(store: seq<TxWithCategory>, w: Where, k: TxType, p: TxWithCategory -> bool)
    requires w.kind.None?
    requires forall row :: p(row) == (row.tx.kind == k)
    ensures Filter(FindMany(store, w), p) == FindMany(store, w.(kind := Some(k)))
    decreases |store|
  {
    if |store| > 0 {
      var init, last := store[..|store| - 1], store[|store| - 1];
      var wk := w.(kind := Some(k));
      assert store == init + [last];
      KindFilterIsQuery(init, w, k, p);
      FindManySnoc(init, last, w);
      FindManySnoc(init, last, wk);
      var tail := if Matches(w, last.tx) then [last] else [];
      FilterConcat(FindMany(init, w), tail, p);
      assert Filter(tail, p) == (if Matches(wk, last.tx) then [last] else []) by {
        if Matches(w, last.tx) {
          FilterSnoc([], last, p);
          assert [] + [last] == [last];
        }
      }
    }
  }
}

/** `GET /api/transactions`: the caller's transactions, filtered by type and
    month, newest first, one page at a time; and `POST`, which records a
    transaction for the caller. */
module Transactions {
  import opened Common
  import opened Seqs
  import opened Text
  import opened Calendar
  import opened Domain
  import opened Store
  import opened Validations
  import opened DashboardPeriod

  // ---- GET: the filter ----

  /** The query parameters: `type`, `month` (after
      `split("-").map(Number)`; `None` when absent or empty), `page` and
      `limit` as sent. */
  datatype Query = Query(typeParam: Option<string>, month: Option<MonthArg>, page: Option<string>, limit: Option<string>)

  /** `searchParams.get(name) || fallback`: an absent or empty parameter
      reads as the fallback. */
  function OrDefault(p: Option<string>, fallback: string): (r: string)
    ensures r != "" || fallback == ""
    ensures p.Some? && p.value != "" ==> r == p.value
  {
    if p.None? || p.value == "" then fallback else p.value
  }

  /** The month count of the `month` parameter, the month overflowing into
      the year as the `Date` constructor does. */
  function MonthCountOf(a: MonthArg): int {
    JsYear(a.year) * 12 + a.month - 1
  }

  /** The `where` clause: the caller's rows, the type when it is spelled
      exactly, and `gte: new Date(year, m - 1, 1)`,
      `lt: new Date(year, m, 1)` when a month is given. */
  function ListWhere(userId: string, q: Query): (w: Where)
    ensures w.userId == userId && w.kind == KindFilter(q.typeParam) && w.lte.None?
    ensures q.month.None? ==> w.gte.None? && w.lt.None?
    ensures q.month.Some? ==>
      && w.gte == Some(StartOfDay(FirstOfMonth(MonthCountOf(q.month.value))))
      && w.lt == Some(StartOfDay(FirstOfMonth(MonthCountOf(q.month.value) + 1)))
  {
    match q.month
    case None => Where(userId, KindFilter(q.typeParam), None, None, None)
    case Some(a) =>
      MakeDateFirst(a.year, a.month - 1);
      MakeDateFirst(a.year, a.month);
      Where(userId, KindFilter(q.typeParam),
            Some(StartOfDay(MakeDate(a.year, a.month - 1, 1))), None,
            Some(StartOfDay(MakeDate(a.year, a.month, 1))))
  }

  /** The month filter is half open: a row matches exactly when it is the
      caller's, has the requested type (if any), and falls on any day of
      the requested month, at any time of day; the 1st of the next month at
      midnight is already out. */
  lemma MonthFilter(userId: string, q: Query, t: Transaction)
    requires q.month.Some?
    ensures Store.Matches(ListWhere(userId, q), t) <==>
      && t.userId == userId
      && (KindFilter(q.typeParam).None? || t.kind == KindFilter(q.typeParam).value)
      && MonthIndex(t.date.date) == MonthCountOf(q.month.value)
  {
    var k := MonthCountOf(q.month.value);
    var first, next := FirstOfMonth(k), FirstOfMonth(k + 1);
    StartOfDayLe(first, t.date);
    StartOfDayLe(next, t.date);
    OrdinalByMonth(first);
    OrdinalByMonth(next);
    OrdinalByMonth(t.date.date);
  }

  /** Without a month every row of the caller's with the requested type
      matches, whatever its date. */
  lemma NoMonthFilter(userId: string, q: Query, t: Transaction)
    requires q.month.None?
    ensures Store.Matches(ListWhere(userId, q), t) <==>
      t.userId == userId && (KindFilter(q.typeParam).None? || t.kind == KindFilter(q.typeParam).value)
  {
  }

  // ---- GET: pagination ----

  /** `skip` then `take` on the ordered rows. */
  function Window<T>(rows: seq<T>, skip: nat, take: nat): (r: seq<T>)
    ensures |r| == Min(take, if skip <= |rows| then |rows| - skip else 0)
    ensures forall i :: 0 <= i < |r| ==> r[i] == rows[skip + i]
  {
    if skip >= |rows| then [] else Take(rows[skip..], take)
  }

  /** `Math.ceil(total / limit)`; `None` for a zero limit, where the
      quotient is not finite and the JSON answer holds `null`. */
  function TotalPages(total: nat, limit: nat): (r: Option<nat>)
    ensures r.None? <==> limit == 0
  {
    if limit == 0 then None else Some((total + limit - 1) / limit)
  }

  /** With a positive limit, the last page is the one holding the last
      row: all rows fit in `totalPages` pages, and not in one fewer. */
  lemma TotalPagesBounds(total: nat, limit: nat)
    requires limit > 0
    ensures var tp := TotalPages(total, limit).value;
      && (tp == 0 <==> total == 0)
      && (total > 0 ==> (tp - 1) * limit < total <= tp * limit)
  {
    var n := total + limit - 1;
    var tp, rem := n / limit, n % limit;
    assert n == tp * limit + rem && 0 <= rem < limit;
    assert (tp - 1) * limit == tp * limit - limit;
  }

  /** The page counts. */
  datatype Pagination = Pagination(page: int, limit: int, total: nat, totalPages: Option<nat>)

  /** The response body. */
  datatype Listing = Listing(transactions: seq<TxWithCategory>, pagination: Pagination)

  const DefaultPage := "1"
  const DefaultLimit := "20"

  /** The page and limit as read, `None` for `NaN`. */
  function PageOf(q: Query): Option<int> { ParseInt(OrDefault(q.page, DefaultPage)) }

  function LimitOf(q: Query): Option<int> { ParseInt(OrDefault(q.limit, DefaultLimit)) }

  /** The route throws outside any `try`, so the framework answers a bare
      500 with no message. */
  const Uncaught := ""

  /** The caller's matching rows, newest first; rows of equal date keep
      table order. */
  function Ordered(store: seq<TxWithCategory>, userId: string, q: Query): (r: seq<TxWithCategory>)
    ensures multiset(r) == multiset(FindMany(store, ListWhere(userId, q)))
    ensures |r| == |FindMany(store, ListWhere(userId, q))|
    ensures SortedDesc(r, DateOrder)
  {
    SortDesc(FindMany(store, ListWhere(userId, q)), DateOrder)
  }

  /** The listing for a page and a limit as `parseInt` read them (`None`
      for `NaN`): `skip: (page - 1) * limit`, `take: limit`. The database
      rejects a `NaN` page or limit and a negative skip. */
  function Paged(store: seq<TxWithCategory>, userId: string, q: Query,
                 page: Option<int>, limit: Option<int>): Reply<Listing>
  {
    if page.None? || limit.None? then Err(500, Uncaught)
    else
      var skip := (page.value - 1) * limit.value;
      if skip < 0 || limit.value < 0 then Err(500, Uncaught)
      else
        var total := |FindMany(store, ListWhere(userId, q))|;
        Ok(Listing(Window(Ordered(store, userId, q), skip, limit.value),
                   Pagination(page.value, limit.value, total, TotalPages(total, limit.value))))
  }

  /** `GET`: `page` and `limit` go through `parseInt`, defaulting to "1"
      and "20". */
  function ListTransactions(store: seq<TxWithCategory>, userId: string, q: Query): Reply<Listing> {
    Paged(store, userId, q, PageOf(q), LimitOf(q))
  }

  /** A listing is answered exactly when page and limit are numbers, the
      limit is not negative, and the page is at least 1 unless the limit
      is 0. */
  lemma ListOutcome(store: seq<TxWithCategory>, userId: string, q: Query, page: Option<int>, limit: Option<int>)
    ensures Paged(store, userId, q, page, limit).Ok? <==>
      && page.Some? && limit.Some?
      && limit.value >= 0
      && (limit.value == 0 || page.value >= 1)
  {
    hide Ordered, FindMany, Window, TotalPages;
    if page.Some? && limit.Some? && limit.value > 0 {
      var p, l := page.value, limit.value;
      if p >= 1 {
        assert (p - 1) * l >= 0;
      } else {
        assert (p - 1) * l <= -l;
      }
    }
  }

  /** An answered page holds, newest first, the rows of the caller's
      ordered matching rows from position `(page - 1) * limit` on, at most
      `limit` of them, each of the caller's and matching the filter; the
      total counts every matching row. */
  lemma ListPage(store: seq<TxWithCategory>, userId: string, q: Query, page: Option<int>, limit: Option<int>)
    requires Paged(store, userId, q, page, limit).Ok?
    ensures page.Some? && limit.Some? && limit.value >= 0
    ensures var l := Paged(store, userId, q, page, limit).value;
      var rows, skip := Ordered(store, userId, q), (page.value - 1) * limit.value;
      && skip >= 0
      && l.pagination.page == page.value && l.pagination.limit == limit.value
      && l.pagination.total == |rows|
      && l.pagination.totalPages == TotalPages(|rows|, limit.value)
      && |l.transactions| <= limit.value
      && (forall i :: 0 <= i < |l.transactions| ==> l.transactions[i] == rows[skip + i])
      && (forall i :: 0 <= i < |l.transactions| ==>
            l.transactions[i].tx.userId == userId && Store.Matches(ListWhere(userId, q), l.transactions[i].tx))
      && SortedDesc(l.transactions, DateOrder)
  {
    hide Paged, Ordered, FindMany, Window, TotalPages;
    ListOutcome(store, userId, q, page, limit);
    PagedShape(store, userId, q, page.value, limit.value);
    var rows := Ordered(store, userId, q);
    var l := Paged(store, userId, q, page, limit).value;
    var skip := (page.value - 1) * limit.value;
    var matching := FindMany(store, ListWhere(userId, q));
    forall i | 0 <= i < |l.transactions|
      ensures Store.Matches(ListWhere(userId, q), l.transactions[i].tx)
    {
      assert rows[skip + i] in multiset(rows);
      assert rows[skip + i] in multiset(matching);
    }
    WindowSorted(rows, skip, limit.value, DateOrder);
  }

  lemma WindowSorted<T>(rows: seq<T>, skip: nat, take: nat, key: T -> int)
    requires SortedDesc(rows, key)
    ensures SortedDesc(Window(rows, skip, take), key)
  {
  }

  /** Without `page` and `limit` the first twenty rows are answered. */
  lemma ListDefaults(store: seq<TxWithCategory>, userId: string, q: Query)
    requires q.page.None? && q.limit.None?
    ensures ListTransactions(store, userId, q) == Paged(store, userId, q, Some(1), Some(20))
    ensures ListTransactions(store, userId, q).Ok?
    ensures var l := ListTransactions(store, userId, q).value;
      && l.pagination.page == 1 && l.pagination.limit == 20
      && l.transactions == Take(Ordered(store, userId, q), 20)
  {
    hide ParseInt, Ordered, FindMany, Window, TotalPages;
    DefaultsRead();
  }

  /** The defaults read as 1 and 20. */
  lemma DefaultsRead()
    ensures ParseInt(DefaultPage) == Some(1) && ParseInt(DefaultLimit) == Some(20)
  {
    hide ParseInt;
    ParseIntOfNatToString(1);
    ParseIntOfNatToString(20);
    assert NatToString(1) == DefaultPage;
    assert NatToString(20) == NatToString(2) + [DigitChar(0)] == DefaultLimit;
  }

  /** The page that holds row `i` (counting from 0), and the row's place on
      it. */
  function PageHolding(i: nat, limit: nat): nat
    requires limit > 0
  {
    i / limit + 1
  }

  function Slot(i: nat, limit: nat): nat
    requires limit > 0
  {
    i % limit
  }

  /** Every row lies on a page: row `i` of the ordered rows is row
      `Slot(i, limit)` of page `PageHolding(i, limit)`, a page from 1 to
      `totalPages`. */
  lemma RowOnPage<T>(rows: seq<T>, limit: nat, i: nat)
    requires limit > 0 && i < |rows|
    ensures var p := PageHolding(i, limit);
      && 1 <= p <= TotalPages(|rows|, limit).value
      && Slot(i, limit) < |Window(rows, (p - 1) * limit, limit)|
      && Window(rows, (p - 1) * limit, limit)[Slot(i, limit)] == rows[i]
  {
    hide Window, TotalPages;
    var p := i / limit + 1;
    TotalPagesBounds(|rows|, limit);
    var tp := TotalPages(|rows|, limit).value;
    assert i == (p - 1) * limit + i % limit;
    MulLtCancel(p - 1, tp, limit);
  }

  lemma MulLtCancel(a: int, b: int, c: int)
    requires c > 0 && a * c < b * c
    ensures a < b
  {
    assert (b - a) * c == b * c - a * c;
  }

  /** The query asking for page `p`, all else equal. */
  function WithPage(q: Query, p: nat): Query {
    q.(page := Some(NatToString(p)))
  }

  lemma WithPageReads(store: seq<TxWithCategory>, userId: string, q: Query, p: nat)
    ensures PageOf(WithPage(q, p)) == Some(p) && LimitOf(WithPage(q, p)) == LimitOf(q)
    ensures Ordered(store, userId, WithPage(q, p)) == Ordered(store, userId, q)
  {
    hide ParseInt;
    ParseIntOfNatToString(p);
    NatToStringDigits(p);
  }

  /** Asking for the page that holds row `i`, with the same filter and
      limit, answers that row. */
  lemma EveryRowListed(store: seq<TxWithCategory>, userId: string, q: Query, i: nat)
    requires LimitOf(q).Some? && LimitOf(q).value > 0
    requires i < |Ordered(store, userId, q)|
    ensures var limit := LimitOf(q).value;
      var q' := WithPage(q, PageHolding(i, limit));
      && ListTransactions(store, userId, q').Ok?
      && Slot(i, limit) < |ListTransactions(store, userId, q').value.transactions|
      && ListTransactions(store, userId, q').value.transactions[Slot(i, limit)] == Ordered(store, userId, q)[i]
  {
    hide *;
    var limit := LimitOf(q).value;
    var p := PageHolding(i, limit);
    var q' := WithPage(q, p);
    WithPageReads(store, userId, q, p);
    RowOnPage(Ordered(store, userId, q), limit, i);
    ListOutcome(store, userId, q', Some(p), Some(limit));
    PagedShape(store, userId, q', p, limit);
    ListIsPaged(store, userId, q');
  }

  lemma ListIsPaged(store: seq<TxWithCategory>, userId: string, q: Query)
    ensures ListTransactions(store, userId, q) == Paged(store, userId, q, PageOf(q), LimitOf(q))
  {
  }

  /** An answered listing, piece by piece. */
  lemma PagedShape(store: seq<TxWithCategory>, userId: string, q: Query, page: int, limit: int)
    requires Paged(store, userId, q, Some(page), Some(limit)).Ok?
    ensures (page - 1) * limit >= 0 && limit >= 0
    ensures var total := |FindMany(store, ListWhere(userId, q))|;
      Paged(store, userId, q, Some(page), Some(limit)).value ==
        Listing(Window(Ordered(store, userId, q), (page - 1) * limit, limit),
                Pagination(page, limit, total, TotalPages(total, limit)))
  {
    hide Ordered, FindMany, Window, TotalPages;
  }

  // ---- POST ----

  const InvalidInput := "Invalid input"
  const CreateFailed := "Failed to create transaction"

  /** The position of the category with id `id`. */
  function CategoryIndex(cats: seq<Category>, id: string): (r: Option<nat>)
    ensures r.Some? ==> r.value < |cats| && cats[r.value].id == id
    ensures r.None? <==> forall j :: 0 <= j < |cats| ==> cats[j].id != id
  {
    FirstWhere(cats, (c: Category) => c.id == id)
  }

  /** A recorded transaction: the new table and the row answered. */
  datatype Created = Created(store: seq<TxWithCategory>, row: TxWithCategory)

  /** `POST`: validate the body; store the row with the caller as owner.
      `parseDate` stands for `new Date(date)`, `None` being an invalid
      date, which the database refuses; a category id no row has breaks
      the foreign key. Both throw inside the `try` and answer 500. */
  function CreateTransaction(store: seq<TxWithCategory>, cats: seq<Category>, userId: string,
                             body: map<string, Json>, emailOk: string -> bool,
                             parseDate: string -> Option<Instant>, newId: string): Reply<Created>
  {
    match Parse(TransactionSchema, body, emailOk)
    case None => Err(400, InvalidInput)
    case Some(m) =>
      match parseDate(StrOf(m, "date"))
      case None => Err(500, CreateFailed)
      case Some(date) =>
        match CategoryIndex(cats, StrOf(m, "categoryId"))
        case None => Err(500, CreateFailed)
        case Some(j) =>
          var t := Transaction(newId, userId, NumOf(m, "amount"), StrOf(m, "description"),
                               KindOf(StrOf(m, "type")), date, StrOf(m, "categoryId"));
          var row := TxWithCategory(t, cats[j]);
          Ok(Created(store + [row], row))
  }

  /** Invalid input answers 400; a valid body answers 500 exactly when its
      date is not a date or no category has its id, whoever owns that
      category. */
  lemma CreateOutcome(store: seq<TxWithCategory>, cats: seq<Category>, userId: string,
                      body: map<string, Json>, emailOk: string -> bool,
                      parseDate: string -> Option<Instant>, newId: string)
    ensures var r := CreateTransaction(store, cats, userId, body, emailOk, parseDate, newId);
      && (r == Err(400, InvalidInput) <==> Parse(TransactionSchema, body, emailOk).None?)
      && (Parse(TransactionSchema, body, emailOk).Some? ==>
            HasStr(body, "date") && HasStr(body, "categoryId")
            && (r == Err(500, CreateFailed) <==>
                  parseDate(body["date"].s).None?
                  || forall j :: 0 <= j < |cats| ==> cats[j].id != body["categoryId"].s))
      && (r.Ok? || r == Err(400, InvalidInput) || r == Err(500, CreateFailed))
  {
    if Parse(TransactionSchema, body, emailOk).Some? {
      TransactionAccepts(body, emailOk);
      TransactionFields(body, emailOk);
    }
  }

  /** A recorded transaction is one new row at the end, owned by the
      caller whatever the body says, with the amount, description (empty
      when not sent), type, date and category sent. */
  lemma CreateWrites(store: seq<TxWithCategory>, cats: seq<Category>, userId: string,
                     body: map<string, Json>, emailOk: string -> bool,
                     parseDate: string -> Option<Instant>, newId: string)
    requires CreateTransaction(store, cats, userId, body, emailOk, parseDate, newId).Ok?
    ensures HasPositive(body, "amount") && HasStr(body, "type") && HasStr(body, "date") && HasStr(body, "categoryId")
    ensures "description" in body ==> HasStr(body, "description")
    ensures var c := CreateTransaction(store, cats, userId, body, emailOk, parseDate, newId).value;
      && c.store == store + [c.row]
      && c.row.tx.id == newId && c.row.tx.userId == userId
      && c.row.tx.amount == body["amount"].n && c.row.tx.amount > 0
      && c.row.tx.description == (if "description" in body then body["description"].s else "")
      && TxTypeName(c.row.tx.kind) == body["type"].s
      && Some(c.row.tx.date) == parseDate(body["date"].s)
      && c.row.tx.categoryId == body["categoryId"].s && c.row.category in cats
      && c.row.category.id == c.row.tx.categoryId
  {
    TransactionAccepts(body, emailOk);
    TransactionFields(body, emailOk);
  }

  /** After a recorded transaction the caller's unfiltered listing counts
      one row more, and every other user's listing is unchanged. */
  lemma CreateListedForCallerOnly(store: seq<TxWithCategory>, cats: seq<Category>, userId: string,
                                  body: map<string, Json>, emailOk: string -> bool,
                                  parseDate: string -> Option<Instant>, newId: string, other: string)
    requires CreateTransaction(store, cats, userId, body, emailOk, parseDate, newId).Ok?
    requires other != userId
    ensures var s, all := CreateTransaction(store, cats, userId, body, emailOk, parseDate, newId).value.store,
                          Query(None, None, None, None);
      && |FindMany(s, ListWhere(userId, all))| == |FindMany(store, ListWhere(userId, all))| + 1
      && forall q :: FindMany(s, ListWhere(other, q)) == FindMany(store, ListWhere(other, q))
  {
    var c := CreateTransaction(store, cats, userId, body, emailOk, parseDate, newId).value;
    CreateWrites(store, cats, userId, body, emailOk, parseDate, newId);
    FindManySnoc(store, c.row, ListWhere(userId, Query(None, None, None, None)));
    forall q
      ensures FindMany(c.store, ListWhere(other, q)) == FindMany(store, ListWhere(other, q))
    {
      FindManySnoc(store, c.row, ListWhere(other, q));
    }
  }
}

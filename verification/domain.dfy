/** The persisted records of the budget tracker: users, categories and
    transactions, with the fields the routes read and write. */
module Domain {
  import opened Common
  import opened Calendar

  /** The `TransactionType` enum. */
  datatype TxType = Income | Expense

  /** The enum's spelling in the database, query strings and JSON bodies. */
  function TxTypeName(k: TxType): string {
    match k
    case Income => "INCOME"
    case Expense => "EXPENSE"
  }

  /** A query-string or body value read as a type: only the exact spellings
      "INCOME" and "EXPENSE" are types. */
  function ParseTxType(s: string): (r: Option<TxType>)
    ensures r.Some? <==> s == "INCOME" || s == "EXPENSE"
    ensures r.Some? ==> TxTypeName(r.value) == s
  {
    if s == "INCOME" then Some(Income)
    else if s == "EXPENSE" then Some(Expense)
    else None
  }

  /** The `type` query parameter (`null` when absent) turned into a filter:
      only the exact spellings "INCOME" and "EXPENSE" restrict a listing;
      any other value is ignored. */
  function KindFilter(typeParam: Option<string>): (r: Option<TxType>)
    ensures r.Some? <==> typeParam == Some("INCOME") || typeParam == Some("EXPENSE")
    ensures r.Some? ==> TxTypeName(r.value) == typeParam.value
  {
    match typeParam
    case None => None
    case Some(s) => ParseTxType(s)
  }

  /** The type of a validated body, whose schema admits only the two
      spellings. */
  function KindOf(s: string): (k: TxType)
    ensures s == "INCOME" || s == "EXPENSE" ==> TxTypeName(k) == s
  {
    if s == "INCOME" then Income else Expense
  }

  /** One money movement. `amount` is in whole currency units, as sent,
      and positive for every row the routes create; the sign comes from
      `kind`. */
  datatype Transaction = Transaction(
    id: string,
    userId: string,
    amount: int,
    description: string,
    kind: TxType,
    date: Instant,
    categoryId: string)

  /** A category; default categories are shared (`userId` null), custom
      ones belong to one user. */
  datatype Category = Category(
    id: string,
    userId: Option<string>,
    name: string,
    kind: TxType,
    icon: string,
    color: string,
    isDefault: bool)

  /** A transaction row joined with its category (`include: { category: true }`). */
  datatype TxWithCategory = TxWithCategory(tx: Transaction, category: Category)

  /** A user row; `password` holds the password hash. */
  datatype User = User(
    id: string,
    name: string,
    email: string,
    password: string,
    currency: string,
    hideAmounts: bool,
    quickExpenseCategories: seq<string>,
    quickIncomeCategories: seq<string>)

  /** The transaction's effect on the balance: `+amount` for income,
      `-amount` for an expense. */
  function Signed(t: Transaction): int {
    if t.kind == Income then t.amount else -t.amount
  }
}

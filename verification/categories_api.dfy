/** The categories route: listing the categories a user can see, defaults
    first and then by name, and creating a custom category unless one with
    the same name and type is already visible to its owner. */
module Categories {
  import opened Common
  import opened Seqs
  import opened Domain
  import opened Validations

  // ---- Name order ----

  /** Lexicographic order on character codes: the database compares names
      this way under a byte-wise collation. */
  predicate NameLe(a: string, b: string)
    decreases |a|
  {
    |a| == 0 || (|b| > 0 && (a[0] < b[0] || (a[0] == b[0] && NameLe(a[1..], b[1..]))))
  }

  lemma {:induction false} NameLeTotal(a: string, b: string)
    ensures NameLe(a, b) || NameLe(b, a)
    decreases |a|
  {
    if |a| > 0 && |b| > 0 && a[0] == b[0] {
      NameLeTotal(a[1..], b[1..]);
    }
  }

  lemma {:induction false} NameLeTrans(a: string, b: string, c: string)
    requires NameLe(a, b) && NameLe(b, c)
    ensures NameLe(a, c)
    decreases |a|
  {
    if |a| > 0 && a[0] == b[0] && b[0] == c[0] {
      NameLeTrans(a[1..], b[1..], c[1..]);
    }
  }

  lemma {:induction false} NameLeAntisymmetric(a: string, b: string)
    requires NameLe(a, b) && NameLe(b, a)
    ensures a == b
    decreases |a|
  {
    if |a| > 0 {
      NameLeAntisymmetric(a[1..], b[1..]);
      assert a == [a[0]] + a[1..] && b == [b[0]] + b[1..];
    }
  }

  // ---- Listing order ----

  /** `orderBy: [{ isDefault: "desc" }, { name: "asc" }]`: `a` may come
      before `b`. */
  predicate ListedBefore(a: Category, b: Category) {
    (a.isDefault && !b.isDefault) || (a.isDefault == b.isDefault && NameLe(a.name, b.name))
  }

  lemma ListedBeforeTotal(a: Category, b: Category)
    ensures ListedBefore(a, b) || ListedBefore(b, a)
  {
    NameLeTotal(a.name, b.name);
  }

  lemma ListedBeforeTrans(a: Category, b: Category, c: Category)
    requires ListedBefore(a, b) && ListedBefore(b, c)
    ensures ListedBefore(a, c)
  {
    if a.isDefault == b.isDefault && b.isDefault == c.isDefault {
      NameLeTrans(a.name, b.name, c.name);
    }
  }

  predicate Ordered(s: seq<Category>) {
    forall i, j :: 0 <= i < j < |s| ==> ListedBefore(s[i], s[j])
  }

  /** Puts `x` in front of the first element it may precede. */
  function Insert(x: Category, s: seq<Category>): (r: seq<Category>)
    ensures multiset(r) == multiset(s) + multiset{x}
    decreases |s|
  {
    if |s| == 0 then [x]
    else if ListedBefore(x, s[0]) then [x] + s
    else
      assert s == [s[0]] + s[1..];
      [s[0]] + Insert(x, s[1..])
  }

  lemma ConsOrdered(h: Category, s: seq<Category>)
    requires Ordered(s)
    requires forall k :: 0 <= k < |s| ==> ListedBefore(h, s[k])
    ensures Ordered([h] + s)
  {
  }

  /** Whatever `h` may precede, it may precede after an insertion too. */
  lemma {:induction false} InsertBounded(h: Category, x: Category, s: seq<Category>)
    requires ListedBefore(h, x)
    requires forall k :: 0 <= k < |s| ==> ListedBefore(h, s[k])
    ensures forall k :: 0 <= k < |Insert(x, s)| ==> ListedBefore(h, Insert(x, s)[k])
    decreases |s|
  {
    if |s| > 0 && !ListedBefore(x, s[0]) {
      InsertBounded(h, x, s[1..]);
    }
  }

  lemma {:induction false} InsertOrdered(x: Category, s: seq<Category>)
    requires Ordered(s)
    ensures Ordered(Insert(x, s))
    decreases |s|
  {
    if |s| > 0 {
      if ListedBefore(x, s[0]) {
        forall j | 0 <= j < |s|
          ensures ListedBefore(x, s[j])
        {
          if j > 0 {
            ListedBeforeTrans(x, s[0], s[j]);
          }
        }
        ConsOrdered(x, s);
      } else {
        assert s == [s[0]] + s[1..];
        InsertOrdered(x, s[1..]);
        ListedBeforeTotal(x, s[0]);
        InsertBounded(s[0], x, s[1..]);
        ConsOrdered(s[0], Insert(x, s[1..]));
      }
    }
  }

  /** The listing order, by insertion. */
  function SortListed(s: seq<Category>): (r: seq<Category>)
    ensures multiset(r) == multiset(s)
    decreases |s|
  {
    if |s| == 0 then []
    else
      assert s == [s[0]] + s[1..];
      Insert(s[0], SortListed(s[1..]))
  }

  /** The sort returns the same categories, each as often, in listing
      order. */
  lemma {:induction false} SortListedOrdered(s: seq<Category>)
    ensures Ordered(SortListed(s))
    ensures multiset(SortListed(s)) == multiset(s)
    decreases |s|
  {
    if |s| > 0 {
      SortListedOrdered(s[1..]);
      InsertOrdered(s[0], SortListed(s[1..]));
    }
  }

  // ---- GET ----

  /** `OR: [{ isDefault: true }, { userId }]`. */
  predicate Visible(c: Category, userId: string) {
    c.isDefault || c.userId == Some(userId)
  }

  predicate Listed(c: Category, userId: string, kind: Option<TxType>) {
    Visible(c, userId) && (kind.None? || c.kind == kind.value)
  }

  function ListedTest(userId: string, kind: Option<TxType>): Category -> bool {
    (c: Category) => Listed(c, userId, kind)
  }

  /** `GET`: the categories the caller may use, in listing order. */
  function ListCategories(cats: seq<Category>, userId: string, typeParam: Option<string>): seq<Category> {
    SortListed(Filter(cats, ListedTest(userId, KindFilter(typeParam))))
  }

  /** The list holds every default or own category of the asked type (of
      any type unless the parameter is exactly INCOME or EXPENSE), each as
      often as it is stored, and no other category. */
  lemma ListExact(cats: seq<Category>, userId: string, typeParam: Option<string>, c: Category)
    ensures multiset(ListCategories(cats, userId, typeParam))[c] ==
      if Visible(c, userId)
         && (typeParam.None? || typeParam.value !in {"INCOME", "EXPENSE"} || TxTypeName(c.kind) == typeParam.value)
      then multiset(cats)[c] else 0
  {
    var kind := KindFilter(typeParam);
    FilterCount(cats, ListedTest(userId, kind), c);
    SortListedOrdered(Filter(cats, ListedTest(userId, kind)));
    if typeParam.Some? && ParseTxType(typeParam.value).Some? {
      var k := ParseTxType(typeParam.value).value;
      assert TxTypeName(c.kind) == typeParam.value <==> c.kind == k;
    }
  }

  /** Defaults come first; among defaults, and among own categories, names
      ascend. */
  lemma ListOrdered(cats: seq<Category>, userId: string, typeParam: Option<string>)
    ensures var r := ListCategories(cats, userId, typeParam);
      forall i, j :: 0 <= i < j < |r| ==>
        && (r[j].isDefault ==> r[i].isDefault)
        && (r[i].isDefault == r[j].isDefault ==> NameLe(r[i].name, r[j].name))
  {
    SortListedOrdered(Filter(cats, ListedTest(userId, KindFilter(typeParam))));
  }

  // ---- POST ----

  const InvalidInput := "Invalid input"
  const DuplicateName := "A category with this name already exists"

  /** The `findFirst`: a category of this name and type that the caller
      owns or that is a default. */
  predicate Clashes(cats: seq<Category>, userId: string, name: string, kind: TxType) {
    exists j :: 0 <= j < |cats| && cats[j].name == name && cats[j].kind == kind && Visible(cats[j], userId)
  }

  /** A created category: the new table and the row answered with 201. */
  datatype Created = Created(cats: seq<Category>, category: Category)

  /** `POST`. The id the database generates is a parameter. */
  function CreateCategory(cats: seq<Category>, userId: string, body: map<string, Json>,
                          emailOk: string -> bool, newId: string): Reply<Created>
  {
    match Parse(CategorySchema, body, emailOk)
    case None => Err(400, InvalidInput)
    case Some(m) =>
      var name, kind := StrOf(m, "name"), KindOf(StrOf(m, "type"));
      if Clashes(cats, userId, name, kind) then Err(400, DuplicateName)
      else
        var c := Category(newId, Some(userId), name, kind, StrOf(m, "icon"), StrOf(m, "color"), false);
        Ok(Created(cats + [c], c))
  }

  /** Invalid input, a visible category of the same name and type, or
      success, each exactly when it should. */
  lemma CreateOutcome(cats: seq<Category>, userId: string, body: map<string, Json>,
                      emailOk: string -> bool, newId: string)
    ensures var r := CreateCategory(cats, userId, body, emailOk, newId);
      && (r == Err(400, InvalidInput) <==> Parse(CategorySchema, body, emailOk).None?)
      && (r == Err(400, DuplicateName) <==>
            Parse(CategorySchema, body, emailOk).Some? && HasStr(body, "name") && HasStr(body, "type")
            && exists j :: 0 <= j < |cats| && Visible(cats[j], userId)
                 && cats[j].name == body["name"].s && TxTypeName(cats[j].kind) == body["type"].s)
  {
    if Parse(CategorySchema, body, emailOk).Some? {
      CategoryAccepts(body, emailOk);
      CategoryFields(body, emailOk);
      var k := KindOf(body["type"].s);
      assert forall j :: 0 <= j < |cats| ==> (TxTypeName(cats[j].kind) == body["type"].s <==> cats[j].kind == k);
    }
  }

  /** A created category is one new row at the end, owned by the caller,
      not a default, with the name, type, icon and colour sent; the other
      rows are unchanged. */
  lemma CreateWrites(cats: seq<Category>, userId: string, body: map<string, Json>,
                     emailOk: string -> bool, newId: string)
    requires CreateCategory(cats, userId, body, emailOk, newId).Ok?
    ensures HasStr(body, "name") && HasStr(body, "type") && HasStr(body, "icon") && HasStr(body, "color")
    ensures var r := CreateCategory(cats, userId, body, emailOk, newId).value;
      && r.cats == cats + [r.category]
      && r.category.id == newId && r.category.userId == Some(userId) && !r.category.isDefault
      && r.category.name == body["name"].s && TxTypeName(r.category.kind) == body["type"].s
      && r.category.icon == body["icon"].s && r.category.color == body["color"].s
      && IsHexColor(r.category.color) && 1 <= |r.category.name| <= 50
  {
    CategoryAccepts(body, emailOk);
    CategoryFields(body, emailOk);
  }

  /** No two categories visible to `userId` share a name and a type. */
  predicate NoVisibleDuplicates(cats: seq<Category>, userId: string) {
    forall i, j :: 0 <= i < j < |cats| && Visible(cats[i], userId) && Visible(cats[j], userId) ==>
      cats[i].name != cats[j].name || cats[i].kind != cats[j].kind
  }

  /** A creation by anyone keeps every user's visible categories free of
      name-and-type duplicates: the new row is visible to its owner only,
      and the owner was checked. */
  lemma CreateKeepsNoDuplicates(cats: seq<Category>, userId: string, body: map<string, Json>,
                                emailOk: string -> bool, newId: string, viewer: string)
    requires NoVisibleDuplicates(cats, viewer)
    requires CreateCategory(cats, userId, body, emailOk, newId).Ok?
    ensures NoVisibleDuplicates(CreateCategory(cats, userId, body, emailOk, newId).value.cats, viewer)
  {
    var r := CreateCategory(cats, userId, body, emailOk, newId).value;
    var c := r.category;
    forall i, j | 0 <= i < j < |r.cats| && Visible(r.cats[i], viewer) && Visible(r.cats[j], viewer)
      ensures r.cats[i].name != r.cats[j].name || r.cats[i].kind != r.cats[j].kind
    {
      if j == |cats| {
        assert r.cats[j] == c && viewer == userId;
        assert r.cats[i] == cats[i];
      }
    }
  }

  /** One creation request: the caller, the body and the id the database
      would give the row. */
  datatype Request = Request(userId: string, body: map<string, Json>, newId: string)

  /** Requests handled one after the other; a refused request changes
      nothing. */
  function CreateAll(cats: seq<Category>, reqs: seq<Request>, emailOk: string -> bool): seq<Category>
    decreases |reqs|
  {
    if |reqs| == 0 then cats
    else
      var next := match CreateCategory(cats, reqs[0].userId, reqs[0].body, emailOk, reqs[0].newId)
        case Ok(r) => r.cats
        case Err(_, _) => cats;
      CreateAll(next, reqs[1..], emailOk)
  }

  /** Handled one at a time, creations by any users keep each user's
      visible categories free of duplicates. */
  lemma {:induction false} CreateAllKeepsNoDuplicates(cats: seq<Category>, reqs: seq<Request>,
                                                       emailOk: string -> bool, viewer: string)
    requires NoVisibleDuplicates(cats, viewer)
    ensures NoVisibleDuplicates(CreateAll(cats, reqs, emailOk), viewer)
    decreases |reqs|
  {
    if |reqs| > 0 {
      var q := reqs[0];
      var r := CreateCategory(cats, q.userId, q.body, emailOk, q.newId);
      if r.Ok? {
        CreateKeepsNoDuplicates(cats, q.userId, q.body, emailOk, q.newId, viewer);
      }
      CreateAllKeepsNoDuplicates(if r.Ok? then r.value.cats else cats, reqs[1..], emailOk, viewer);
    }
  }
}

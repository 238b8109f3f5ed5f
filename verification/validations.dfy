/** The request-body schemas: a JSON object is checked key by key against a
    schema (as `z.object({...}).parse` does), keys the schema does not name
    are dropped, and an optional refinement compares two accepted fields. */
module Validations {
  import opened Common
  import opened Text

  /** A JSON value as `request.json()` yields it, nested objects included.
      Numbers are integers: amounts are whole currency units. */
  datatype Json =
    | JStr(s: string)
    | JNum(n: int)
    | JBool(b: bool)
    | JNull
    | JArr(items: seq<Json>)
    | JObj(fields: map<string, Json>)

  /** One string check: `.min(n)`, `.max(n)`, `.email()` or the colour
      pattern `/^#[0-9A-Fa-f]{6}$/`. */
  datatype Check = MinLen(n: nat) | MaxLen(n: nat) | Email | HexColor

  /** The schema of one key: `z.string()` with checks and an optional
      `.default(...)`, `z.number().positive()`, or `z.enum([...])` /
      `z.literal(...)`. */
  datatype Field = Text(checks: seq<Check>, default: Option<string>) | Positive | OneOf(options: seq<string>)

  datatype Entry = Entry(key: string, field: Field)

  /** `.refine((d) => d[key] === d[other], { path: [key] })`, if any. */
  datatype Refinement = NoRefinement | Matches(key: string, other: string)

  datatype Schema = Schema(entries: seq<Entry>, refinement: Refinement)

  /** `#` and six hexadecimal digits of either case, nothing else. */
  predicate IsHexColor(s: string) {
    |s| == 7 && s[0] == '#' && forall i :: 1 <= i < 7 ==> IsHexDigit(s[i])
  }

  /** Whether `s` passes check `c`; the e-mail syntax test is the parameter
      `emailOk`. */
  predicate Passes(c: Check, s: string, emailOk: string -> bool) {
    match c
    case MinLen(n) => |s| >= n
    case MaxLen(n) => |s| <= n
    case Email => emailOk(s)
    case HexColor => IsHexColor(s)
  }

  /** Every check of the chain passes. */
  predicate PassesAll(checks: seq<Check>, s: string, emailOk: string -> bool)
    decreases |checks|
  {
    |checks| == 0 || (Passes(checks[0], s, emailOk) && PassesAll(checks[1..], s, emailOk))
  }

  /** The value a key's schema accepts, or `None` for an issue. A missing
      key takes the default, which then goes through the same checks; a
      present key of the wrong JSON type (`null` included) is an issue. */
  function ParseField(f: Field, v: Option<Json>, emailOk: string -> bool): Option<Json> {
    match f
    case Text(checks, default) =>
      var input := if v.None? && default.Some? then Some(JStr(default.value)) else v;
      if input.Some? && input.value.JStr? && PassesAll(checks, input.value.s, emailOk) then input else None
    case Positive =>
      if v.Some? && v.value.JNum? && v.value.n > 0 then v else None
    case OneOf(options) =>
      if v.Some? && v.value.JStr? && v.value.s in options then v else None
  }

  function Get(body: map<string, Json>, key: string): Option<Json> {
    if key in body then Some(body[key]) else None
  }

  /** The object parse: every entry must pass; the result holds exactly the
      schema's keys. */
  function ParseEntries(entries: seq<Entry>, body: map<string, Json>, emailOk: string -> bool): Option<map<string, Json>>
    decreases |entries|
  {
    if |entries| == 0 then Some(map[])
    else
      var last := entries[|entries| - 1];
      match ParseEntries(entries[..|entries| - 1], body, emailOk)
      case None => None
      case Some(m) =>
        match ParseField(last.field, Get(body, last.key), emailOk)
        case None => None
        case Some(v) => Some(m[last.key := v])
  }

  /** `schema.parse(body)`: `None` stands for the thrown `ZodError`. */
  function Parse(schema: Schema, body: map<string, Json>, emailOk: string -> bool): Option<map<string, Json>> {
    match ParseEntries(schema.entries, body, emailOk)
    case None => None
    case Some(m) =>
      match schema.refinement
      case NoRefinement => Some(m)
      case Matches(key, other) =>
        if key in m && other in m && m[key] == m[other] then Some(m) else None
  }

  /** Every entry's key passes its schema. */
  predicate AllPass(entries: seq<Entry>, body: map<string, Json>, emailOk: string -> bool) {
    forall i :: 0 <= i < |entries| ==> FieldPasses(entries[i], body, emailOk)
  }

  predicate FieldPasses(e: Entry, body: map<string, Json>, emailOk: string -> bool) {
    ParseField(e.field, Get(body, e.key), emailOk).Some?
  }

  /** The object parse succeeds exactly when every entry's key passes its
      schema. */
  lemma {:induction false} ParseEntriesSucceeds(entries: seq<Entry>, body: map<string, Json>, emailOk: string -> bool)
    ensures ParseEntries(entries, body, emailOk).Some? <==> AllPass(entries, body, emailOk)
    decreases |entries|
  {
    if |entries| > 0 {
      var init := entries[..|entries| - 1];
      ParseEntriesSucceeds(init, body, emailOk);
      assert forall i :: 0 <= i < |init| ==> init[i] == entries[i];
    }
  }

  /** The parsed object holds no key the schema does not name. */
  lemma {:induction false} ParseEntriesKeys(entries: seq<Entry>, body: map<string, Json>, emailOk: string -> bool, k: string)
    requires ParseEntries(entries, body, emailOk).Some?
    requires k in ParseEntries(entries, body, emailOk).value
    ensures exists i :: 0 <= i < |entries| && entries[i].key == k
    decreases |entries|
  {
    var init := entries[..|entries| - 1];
    if k != entries[|entries| - 1].key {
      ParseEntriesKeys(init, body, emailOk, k);
      var i :| 0 <= i < |init| && init[i].key == k;
      assert entries[i] == init[i];
    }
  }

  /** Among keys named once, each kept key holds the value its schema
      accepted. */
  lemma {:induction false} ParseEntriesValue(entries: seq<Entry>, body: map<string, Json>, emailOk: string -> bool, j: nat)
    requires j < |entries|
    requires forall i :: 0 <= i < |entries| && i != j ==> entries[i].key != entries[j].key
    requires ParseEntries(entries, body, emailOk).Some?
    ensures entries[j].key in ParseEntries(entries, body, emailOk).value
    ensures Some(ParseEntries(entries, body, emailOk).value[entries[j].key])
         == ParseField(entries[j].field, Get(body, entries[j].key), emailOk)
    decreases |entries|
  {
    var init := entries[..|entries| - 1];
    if j < |entries| - 1 {
      ParseEntriesValue(init, body, emailOk, j);
    }
  }

  /** The keys a schema names. */
  function KeySet(entries: seq<Entry>): set<string> {
    set i | 0 <= i < |entries| :: entries[i].key
  }

  /** A successful parse holds exactly the keys the schema names, whatever
      the body holds besides. */
  lemma {:induction false} ParseEntriesKeySet(entries: seq<Entry>, body: map<string, Json>, emailOk: string -> bool)
    requires ParseEntries(entries, body, emailOk).Some?
    ensures ParseEntries(entries, body, emailOk).value.Keys == KeySet(entries)
    decreases |entries|
  {
    if |entries| > 0 {
      var init := entries[..|entries| - 1];
      ParseEntriesKeySet(init, body, emailOk);
      assert KeySet(entries) == KeySet(init) + {entries[|entries| - 1].key} by {
        assert forall i :: 0 <= i < |init| ==> init[i] == entries[i];
      }
    }
  }

  /** `parse` strips every key the schema does not name and keeps every
      key it does. */
  lemma ParseKeys(schema: Schema, body: map<string, Json>, emailOk: string -> bool)
    requires Parse(schema, body, emailOk).Some?
    ensures Parse(schema, body, emailOk).value.Keys == KeySet(schema.entries)
  {
    ParseEntriesKeySet(schema.entries, body, emailOk);
  }

  /** The string under `key` of a parsed object (`validated.key`); the
      empty string stands in for a key the schema did not make a string. */
  function StrOf(m: map<string, Json>, key: string): string {
    if key in m && m[key].JStr? then m[key].s else ""
  }

  /** The number under `key` of a parsed object, 0 where there is none. */
  function NumOf(m: map<string, Json>, key: string): int {
    if key in m && m[key].JNum? then m[key].n else 0
  }

  // ---- The schemas ----

  const TxTypes: seq<string> := ["INCOME", "EXPENSE"]

  const RegisterSchema := Schema([
    Entry("name", Text([MinLen(2)], None)),
    Entry("email", Text([Email], None)),
    Entry("password", Text([MinLen(6)], None)),
    Entry("confirmPassword", Text([], None))], Matches("password", "confirmPassword"))

  const TransactionSchema := Schema([
    Entry("amount", Positive),
    Entry("description", Text([MaxLen(255)], Some(""))),
    Entry("type", OneOf(TxTypes)),
    Entry("date", Text([MinLen(1)], None)),
    Entry("categoryId", Text([MinLen(1)], None))], NoRefinement)

  const CategorySchema := Schema([
    Entry("name", Text([MinLen(1), MaxLen(50)], None)),
    Entry("type", OneOf(TxTypes)),
    Entry("icon", Text([MinLen(1)], None)),
    Entry("color", Text([HexColor], None))], NoRefinement)

  const UpdateProfileSchema := Schema([
    Entry("name", Text([MinLen(2)], None)),
    Entry("email", Text([Email], None)),
    Entry("currency", Text([MinLen(1)], None))], NoRefinement)

  const ChangePasswordSchema := Schema([
    Entry("currentPassword", Text([MinLen(6)], None)),
    Entry("newPassword", Text([MinLen(6)], None)),
    Entry("confirmPassword", Text([], None))], Matches("newPassword", "confirmPassword"))

  const ReceiptScanResultSchema := Schema([
    Entry("amount", Positive),
    Entry("categoryId", Text([MinLen(1)], None)),
    Entry("date", Text([MinLen(1)], None)),
    Entry("description", Text([MaxLen(255)], None)),
    Entry("type", OneOf(["EXPENSE"]))], NoRefinement)

  /** The keys each schema names. */
  lemma SchemaKeys()
    ensures KeySet(RegisterSchema.entries) == {"name", "email", "password", "confirmPassword"}
    ensures KeySet(TransactionSchema.entries) == {"amount", "description", "type", "date", "categoryId"}
    ensures KeySet(CategorySchema.entries) == {"name", "type", "icon", "color"}
    ensures KeySet(UpdateProfileSchema.entries) == {"name", "email", "currency"}
    ensures KeySet(ChangePasswordSchema.entries) == {"currentPassword", "newPassword", "confirmPassword"}
    ensures KeySet(ReceiptScanResultSchema.entries) == {"amount", "categoryId", "date", "description", "type"}
  {
    var e := RegisterSchema.entries;
    assert e[0].key == "name" && e[1].key == "email" && e[2].key == "password" && e[3].key == "confirmPassword";
    e := TransactionSchema.entries;
    assert e[0].key == "amount" && e[1].key == "description" && e[2].key == "type";
    assert e[3].key == "date" && e[4].key == "categoryId";
    e := CategorySchema.entries;
    assert e[0].key == "name" && e[1].key == "type" && e[2].key == "icon" && e[3].key == "color";
    e := UpdateProfileSchema.entries;
    assert e[0].key == "name" && e[1].key == "email" && e[2].key == "currency";
    e := ChangePasswordSchema.entries;
    assert e[0].key == "currentPassword" && e[1].key == "newPassword" && e[2].key == "confirmPassword";
    e := ReceiptScanResultSchema.entries;
    assert e[0].key == "amount" && e[1].key == "categoryId" && e[2].key == "date";
    assert e[3].key == "description" && e[4].key == "type";
  }

  // ---- What each schema accepts ----

  /** The key is present and holds a string. */
  predicate HasStr(body: map<string, Json>, key: string) {
    key in body && body[key].JStr?
  }

  /** The key is present and holds a positive number. */
  predicate HasPositive(body: map<string, Json>, key: string) {
    key in body && body[key].JNum? && body[key].n > 0
  }

  /** Registration: a name of at least 2 characters, an e-mail address, a
      password of at least 6 characters and an equal confirmation. */
  lemma RegisterAccepts(body: map<string, Json>, emailOk: string -> bool)
    ensures Parse(RegisterSchema, body, emailOk).Some? <==>
      && HasStr(body, "name") && |body["name"].s| >= 2
      && HasStr(body, "email") && emailOk(body["email"].s)
      && HasStr(body, "password") && |body["password"].s| >= 6
      && HasStr(body, "confirmPassword")
      && body["password"].s == body["confirmPassword"].s
  {
    var e := RegisterSchema.entries;
    ParseEntriesSucceeds(e, body, emailOk);
    assert FieldPasses(e[0], body, emailOk) <==> HasStr(body, "name") && |body["name"].s| >= 2;
    assert FieldPasses(e[1], body, emailOk) <==> HasStr(body, "email") && emailOk(body["email"].s);
    assert FieldPasses(e[2], body, emailOk) <==> HasStr(body, "password") && |body["password"].s| >= 6;
    assert FieldPasses(e[3], body, emailOk) <==> HasStr(body, "confirmPassword");
    if ParseEntries(e, body, emailOk).Some? {
      ParseEntriesValue(e, body, emailOk, 2);
      ParseEntriesValue(e, body, emailOk, 3);
    }
  }

  /** The accepted registration holds the four named keys with the values
      sent, and nothing else. */
  lemma RegisterFields(body: map<string, Json>, emailOk: string -> bool)
    requires Parse(RegisterSchema, body, emailOk).Some?
    ensures var m := Parse(RegisterSchema, body, emailOk).value;
      && "name" in body && "name" in m && m["name"] == body["name"]
      && "email" in body && "email" in m && m["email"] == body["email"]
      && "password" in body && "password" in m && m["password"] == body["password"]
      && "confirmPassword" in body && "confirmPassword" in m && m["confirmPassword"] == body["confirmPassword"]
  {
    var e := RegisterSchema.entries;
    ParseEntriesValue(e, body, emailOk, 0);
    ParseEntriesValue(e, body, emailOk, 1);
    ParseEntriesValue(e, body, emailOk, 2);
    ParseEntriesValue(e, body, emailOk, 3);
  }

  /** A transaction: a positive amount, a description of at most 255
      characters (the empty string when absent), the type INCOME or
      EXPENSE, and non-empty date and category id. */
  lemma TransactionAccepts(body: map<string, Json>, emailOk: string -> bool)
    ensures Parse(TransactionSchema, body, emailOk).Some? <==>
      && HasPositive(body, "amount")
      && ("description" in body ==> HasStr(body, "description") && |body["description"].s| <= 255)
      && HasStr(body, "type") && (body["type"].s == "INCOME" || body["type"].s == "EXPENSE")
      && HasStr(body, "date") && |body["date"].s| >= 1
      && HasStr(body, "categoryId") && |body["categoryId"].s| >= 1
  {
    var e := TransactionSchema.entries;
    ParseEntriesSucceeds(e, body, emailOk);
    assert FieldPasses(e[0], body, emailOk) <==> HasPositive(body, "amount");
    assert FieldPasses(e[1], body, emailOk)
       <==> ("description" in body ==> HasStr(body, "description") && |body["description"].s| <= 255);
    assert FieldPasses(e[2], body, emailOk)
       <==> HasStr(body, "type") && (body["type"].s == "INCOME" || body["type"].s == "EXPENSE");
    assert FieldPasses(e[3], body, emailOk) <==> HasStr(body, "date") && |body["date"].s| >= 1;
    assert FieldPasses(e[4], body, emailOk) <==> HasStr(body, "categoryId") && |body["categoryId"].s| >= 1;
  }

  /** The accepted transaction keeps the five named keys, the description
      defaulting to the empty string. */
  lemma TransactionFields(body: map<string, Json>, emailOk: string -> bool)
    requires Parse(TransactionSchema, body, emailOk).Some?
    ensures var m := Parse(TransactionSchema, body, emailOk).value;
      && "amount" in body && "amount" in m && m["amount"] == body["amount"]
      && "description" in m && m["description"] == (if "description" in body then body["description"] else JStr(""))
      && "type" in body && "type" in m && m["type"] == body["type"]
      && "date" in body && "date" in m && m["date"] == body["date"]
      && "categoryId" in body && "categoryId" in m && m["categoryId"] == body["categoryId"]
  {
    var e := TransactionSchema.entries;
    ParseEntriesValue(e, body, emailOk, 0);
    ParseEntriesValue(e, body, emailOk, 1);
    ParseEntriesValue(e, body, emailOk, 2);
    ParseEntriesValue(e, body, emailOk, 3);
    ParseEntriesValue(e, body, emailOk, 4);
  }

  /** A category: a name of 1 to 50 characters, the type INCOME or
      EXPENSE, a non-empty icon and a `#rrggbb` colour. */
  lemma CategoryAccepts(body: map<string, Json>, emailOk: string -> bool)
    ensures Parse(CategorySchema, body, emailOk).Some? <==>
      && HasStr(body, "name") && 1 <= |body["name"].s| <= 50
      && HasStr(body, "type") && (body["type"].s == "INCOME" || body["type"].s == "EXPENSE")
      && HasStr(body, "icon") && |body["icon"].s| >= 1
      && HasStr(body, "color") && IsHexColor(body["color"].s)
  {
    var e := CategorySchema.entries;
    ParseEntriesSucceeds(e, body, emailOk);
    assert FieldPasses(e[0], body, emailOk) <==> HasStr(body, "name") && 1 <= |body["name"].s| <= 50;
    assert FieldPasses(e[1], body, emailOk)
       <==> HasStr(body, "type") && (body["type"].s == "INCOME" || body["type"].s == "EXPENSE");
    assert FieldPasses(e[2], body, emailOk) <==> HasStr(body, "icon") && |body["icon"].s| >= 1;
    assert FieldPasses(e[3], body, emailOk) <==> HasStr(body, "color") && IsHexColor(body["color"].s);
  }

  lemma CategoryFields(body: map<string, Json>, emailOk: string -> bool)
    requires Parse(CategorySchema, body, emailOk).Some?
    ensures var m := Parse(CategorySchema, body, emailOk).value;
      && "name" in body && "name" in m && m["name"] == body["name"]
      && "type" in body && "type" in m && m["type"] == body["type"]
      && "icon" in body && "icon" in m && m["icon"] == body["icon"]
      && "color" in body && "color" in m && m["color"] == body["color"]
  {
    var e := CategorySchema.entries;
    ParseEntriesValue(e, body, emailOk, 0);
    ParseEntriesValue(e, body, emailOk, 1);
    ParseEntriesValue(e, body, emailOk, 2);
    ParseEntriesValue(e, body, emailOk, 3);
  }

  /** A profile update: a name of at least 2 characters, an e-mail address
      and a non-empty currency. */
  lemma UpdateProfileAccepts(body: map<string, Json>, emailOk: string -> bool)
    ensures Parse(UpdateProfileSchema, body, emailOk).Some? <==>
      && HasStr(body, "name") && |body["name"].s| >= 2
      && HasStr(body, "email") && emailOk(body["email"].s)
      && HasStr(body, "currency") && |body["currency"].s| >= 1
  {
    var e := UpdateProfileSchema.entries;
    ParseEntriesSucceeds(e, body, emailOk);
    assert FieldPasses(e[0], body, emailOk) <==> HasStr(body, "name") && |body["name"].s| >= 2;
    assert FieldPasses(e[1], body, emailOk) <==> HasStr(body, "email") && emailOk(body["email"].s);
    assert FieldPasses(e[2], body, emailOk) <==> HasStr(body, "currency") && |body["currency"].s| >= 1;
  }

  lemma UpdateProfileFields(body: map<string, Json>, emailOk: string -> bool)
    requires Parse(UpdateProfileSchema, body, emailOk).Some?
    ensures var m := Parse(UpdateProfileSchema, body, emailOk).value;
      && "name" in body && "name" in m && m["name"] == body["name"]
      && "email" in body && "email" in m && m["email"] == body["email"]
      && "currency" in body && "currency" in m && m["currency"] == body["currency"]
  {
    var e := UpdateProfileSchema.entries;
    ParseEntriesValue(e, body, emailOk, 0);
    ParseEntriesValue(e, body, emailOk, 1);
    ParseEntriesValue(e, body, emailOk, 2);
  }

  /** A password change: current and new passwords of at least 6
      characters and a confirmation equal to the new one. */
  lemma ChangePasswordAccepts(body: map<string, Json>, emailOk: string -> bool)
    ensures Parse(ChangePasswordSchema, body, emailOk).Some? <==>
      && HasStr(body, "currentPassword") && |body["currentPassword"].s| >= 6
      && HasStr(body, "newPassword") && |body["newPassword"].s| >= 6
      && HasStr(body, "confirmPassword")
      && body["newPassword"].s == body["confirmPassword"].s
  {
    var e := ChangePasswordSchema.entries;
    ParseEntriesSucceeds(e, body, emailOk);
    assert FieldPasses(e[0], body, emailOk) <==> HasStr(body, "currentPassword") && |body["currentPassword"].s| >= 6;
    assert FieldPasses(e[1], body, emailOk) <==> HasStr(body, "newPassword") && |body["newPassword"].s| >= 6;
    assert FieldPasses(e[2], body, emailOk) <==> HasStr(body, "confirmPassword");
    if ParseEntries(e, body, emailOk).Some? {
      ParseEntriesValue(e, body, emailOk, 1);
      ParseEntriesValue(e, body, emailOk, 2);
    }
  }

  /** A receipt result: a positive amount, non-empty category id and date,
      a description of at most 255 characters, and the type EXPENSE
      exactly. */
  lemma ReceiptResultAccepts(body: map<string, Json>, emailOk: string -> bool)
    ensures Parse(ReceiptScanResultSchema, body, emailOk).Some? <==>
      && HasPositive(body, "amount")
      && HasStr(body, "categoryId") && |body["categoryId"].s| >= 1
      && HasStr(body, "date") && |body["date"].s| >= 1
      && HasStr(body, "description") && |body["description"].s| <= 255
      && HasStr(body, "type") && body["type"].s == "EXPENSE"
  {
    var e := ReceiptScanResultSchema.entries;
    ParseEntriesSucceeds(e, body, emailOk);
    assert FieldPasses(e[0], body, emailOk) <==> HasPositive(body, "amount");
    assert FieldPasses(e[1], body, emailOk) <==> HasStr(body, "categoryId") && |body["categoryId"].s| >= 1;
    assert FieldPasses(e[2], body, emailOk) <==> HasStr(body, "date") && |body["date"].s| >= 1;
    assert FieldPasses(e[3], body, emailOk) <==> HasStr(body, "description") && |body["description"].s| <= 255;
    assert FieldPasses(e[4], body, emailOk) <==> HasStr(body, "type") && body["type"].s == "EXPENSE";
  }

  lemma ReceiptResultFields(body: map<string, Json>, emailOk: string -> bool)
    requires Parse(ReceiptScanResultSchema, body, emailOk).Some?
    ensures var m := Parse(ReceiptScanResultSchema, body, emailOk).value;
      && "amount" in body && "amount" in m && m["amount"] == body["amount"]
      && "categoryId" in body && "categoryId" in m && m["categoryId"] == body["categoryId"]
      && "date" in body && "date" in m && m["date"] == body["date"]
      && "description" in body && "description" in m && m["description"] == body["description"]
      && "type" in m && m["type"] == JStr("EXPENSE")
  {
    var e := ReceiptScanResultSchema.entries;
    ParseEntriesValue(e, body, emailOk, 0);
    ParseEntriesValue(e, body, emailOk, 1);
    ParseEntriesValue(e, body, emailOk, 2);
    ParseEntriesValue(e, body, emailOk, 3);
    ParseEntriesValue(e, body, emailOk, 4);
  }

}

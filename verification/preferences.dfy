/** The preferences route: reading a user's display preferences with
    defaults, and the partial update that validates the quick-category
    lists. */
module Preferences {
  import opened Common
  import opened Domain
  import opened Users
  import opened Validations
  import QuickPicker

  /** The three preference fields the route selects. */
  datatype Prefs = Prefs(hideAmounts: bool, quickExpense: seq<string>, quickIncome: seq<string>)

  function PrefsOf(u: User): Prefs {
    Prefs(u.hideAmounts, u.quickExpenseCategories, u.quickIncomeCategories)
  }

  /** `GET`: the stored preferences, each falling back (`??`) to `false` or
      the empty list when the user record is missing. */
  function GetPrefs(users: seq<User>, userId: string): (p: Prefs)
    ensures (forall j :: 0 <= j < |users| ==> users[j].id != userId) ==> p == Prefs(false, [], [])
    ensures (exists j :: 0 <= j < |users| && users[j].id == userId) ==>
      exists j :: && 0 <= j < |users| && users[j].id == userId
                  && (forall k :: 0 <= k < j ==> users[k].id != userId)
                  && p == PrefsOf(users[j])
  {
    match FindById(users, userId)
    case None => Prefs(false, [], [])
    case Some(i) => PrefsOf(users[i])
  }

  /** Reading the preferences back after an accepted update gives exactly
      what the update answered. */
  lemma GetAfterPatch(users: seq<User>, userId: string, body: map<string, Json>)
    requires Patch(users, userId, body).Ok?
    ensures GetPrefs(Patch(users, userId, body).value.users, userId) == Patch(users, userId, body).value.prefs
  {
    var i := FindById(users, userId).value;
    var us := Patch(users, userId, body).value.users;
    assert us[i].id == userId;
    assert forall j :: 0 <= j < i ==> us[j] == users[j];
    assert FindById(us, userId) == Some(i);
  }

  /** An update leaves every other user's preferences as they read before. */
  lemma PatchKeepsOthersPrefs(users: seq<User>, userId: string, body: map<string, Json>, other: string)
    requires Patch(users, userId, body).Ok? && other != userId
    ensures GetPrefs(Patch(users, userId, body).value.users, other) == GetPrefs(users, other)
  {
    var i := FindById(users, userId).value;
    var us := Patch(users, userId, body).value.users;
    assert forall j :: 0 <= j < |us| ==> us[j].id == users[j].id;
    assert FindById(us, other) == FindById(users, other) by {
      assert forall j :: 0 <= j < |us| ==> (us[j].id == other <==> users[j].id == other);
      match FindById(users, other)
      case None =>
      case Some(k) =>
        assert us[k] == users[k];
    }
  }

  /** `Boolean(x)` of a JSON value. */
  predicate Truthy(j: Json) {
    match j
    case JStr(s) => s != ""
    case JNum(n) => n != 0
    case JBool(b) => b
    case JNull => false
    case JArr(_) => true
    case JObj(_) => true
  }

  /** The guard on a quick-category list: an array of at most four items,
      every one of them a string. */
  predicate IsQuickList(j: Json) {
    j.JArr? && |j.items| <= 4 && forall i :: 0 <= i < |j.items| ==> j.items[i].JStr?
  }

  /** The strings of an array of JSON strings. */
  function Strings(items: seq<Json>): (r: seq<string>)
    requires forall i :: 0 <= i < |items| ==> items[i].JStr?
    ensures |r| == |items|
    ensures forall i :: 0 <= i < |r| ==> items[i] == JStr(r[i])
    decreases |items|
  {
    if |items| == 0 then [] else Strings(items[..|items| - 1]) + [items[|items| - 1].s]
  }

  /** The `data` object of the update: one optional entry per preference. */
  datatype Update = Update(hideAmounts: Option<bool>, quickExpense: Option<seq<string>>, quickIncome: Option<seq<string>>)

  const ExpenseListError := "quickExpenseCategories must be a string array with max 4 items"
  const IncomeListError := "quickIncomeCategories must be a string array with max 4 items"

  /** The update a `PATCH` body asks for: only keys present in the body are
      set; a present list that fails the guard is a 400, the expense list
      being looked at first. */
  function UpdateOf(body: map<string, Json>): Reply<Update> {
    var hidden := if "hideAmounts" in body then Some(Truthy(body["hideAmounts"])) else None;
    if "quickExpenseCategories" in body && !IsQuickList(body["quickExpenseCategories"]) then
      Err(400, ExpenseListError)
    else if "quickIncomeCategories" in body && !IsQuickList(body["quickIncomeCategories"]) then
      Err(400, IncomeListError)
    else
      var expense := if "quickExpenseCategories" in body
        then Some(Strings(body["quickExpenseCategories"].items)) else None;
      var income := if "quickIncomeCategories" in body
        then Some(Strings(body["quickIncomeCategories"].items)) else None;
      Ok(Update(hidden, expense, income))
  }

  /** `prisma.user.update` with that `data`: the fields it names change. */
  function Apply(u: User, d: Update): User {
    u.(hideAmounts := d.hideAmounts.GetOr(u.hideAmounts),
       quickExpenseCategories := d.quickExpense.GetOr(u.quickExpenseCategories),
       quickIncomeCategories := d.quickIncome.GetOr(u.quickIncomeCategories))
  }

  /** What a successful `PATCH` leaves behind: the new table and the
      preferences it answers with. */
  datatype Patched = Patched(users: seq<User>, prefs: Prefs)

  /** `PATCH`. Updating a missing user throws outside any `try`, which the
      framework answers with a 500. */
  function Patch(users: seq<User>, userId: string, body: map<string, Json>): Reply<Patched> {
    match UpdateOf(body)
    case Err(status, message) => Err(status, message)
    case Ok(d) =>
      match FindById(users, userId)
      case None => Err(500, "")
      case Some(i) => Ok(Patched(users[i := Apply(users[i], d)], PrefsOf(Apply(users[i], d))))
  }

  /** A body is turned away exactly when a list it carries fails the guard;
      a bad expense list is reported before a bad income list. */
  lemma PatchRejects(users: seq<User>, userId: string, body: map<string, Json>)
    ensures (Patch(users, userId, body).Err? && Patch(users, userId, body).status == 400) <==>
      (("quickExpenseCategories" in body && !IsQuickList(body["quickExpenseCategories"]))
       || ("quickIncomeCategories" in body && !IsQuickList(body["quickIncomeCategories"])))
    ensures "quickExpenseCategories" in body && !IsQuickList(body["quickExpenseCategories"]) ==>
      Patch(users, userId, body) == Err(400, ExpenseListError)
  {
  }

  /** An accepted body for an existing user changes that user's fields
      named in the body, and nothing else: hidden amounts become the
      truthiness of the value sent, the lists the strings sent. */
  lemma PatchWrites(users: seq<User>, userId: string, body: map<string, Json>)
    requires UpdateOf(body).Ok? && FindById(users, userId).Some?
    ensures Patch(users, userId, body).Ok?
    ensures var i, us := FindById(users, userId).value, Patch(users, userId, body).value.users;
      && |us| == |users|
      && forall j :: 0 <= j < |users| && j != i ==> us[j] == users[j]
    ensures var i := FindById(users, userId).value;
      var r := Patch(users, userId, body).value;
      var u, v := users[i], r.users[i];
      && v.id == u.id && v.name == u.name && v.email == u.email
      && v.password == u.password && v.currency == u.currency
      && v.hideAmounts == (if "hideAmounts" in body then Truthy(body["hideAmounts"]) else u.hideAmounts)
      && (if "quickExpenseCategories" in body
          then body["quickExpenseCategories"] == JArr(ToJson(v.quickExpenseCategories))
          else v.quickExpenseCategories == u.quickExpenseCategories)
      && (if "quickIncomeCategories" in body
          then body["quickIncomeCategories"] == JArr(ToJson(v.quickIncomeCategories))
          else v.quickIncomeCategories == u.quickIncomeCategories)
      && r.prefs == PrefsOf(v)
  {
    var d := UpdateOf(body).value;
    if "quickExpenseCategories" in body {
      StringsRoundTrip(body["quickExpenseCategories"].items);
    }
    if "quickIncomeCategories" in body {
      StringsRoundTrip(body["quickIncomeCategories"].items);
    }
  }

  /** An accepted update never stores more than four ids in either list. */
  lemma PatchKeepsListsShort(users: seq<User>, userId: string, body: map<string, Json>)
    requires forall j :: 0 <= j < |users| ==>
      |users[j].quickExpenseCategories| <= 4 && |users[j].quickIncomeCategories| <= 4
    requires Patch(users, userId, body).Ok?
    ensures var us := Patch(users, userId, body).value.users;
      forall j :: 0 <= j < |us| ==>
        |us[j].quickExpenseCategories| <= 4 && |us[j].quickIncomeCategories| <= 4
  {
  }

  /** The update on a missing user fails. */
  lemma PatchMissingUser(users: seq<User>, userId: string, body: map<string, Json>)
    requires UpdateOf(body).Ok? && FindById(users, userId).None?
    ensures Patch(users, userId, body) == Err(500, "")
  {
  }

  /** The JSON array of a list of ids, as the picker sends it. */
  function ToJson(ids: seq<string>): (r: seq<Json>)
    ensures |r| == |ids|
    ensures forall i :: 0 <= i < |r| ==> r[i] == JStr(ids[i])
  {
    seq(|ids|, (i: int) requires 0 <= i < |ids| => JStr(ids[i]))
  }

  lemma StringsRoundTrip(items: seq<Json>)
    requires forall i :: 0 <= i < |items| ==> items[i].JStr?
    ensures ToJson(Strings(items)) == items
  {
  }

  /** Every selection the picker can produce passes the route's guard and
      is stored as picked. */
  lemma PickerListAccepted(ids: seq<string>)
    requires QuickPicker.Valid(ids)
    ensures IsQuickList(JArr(ToJson(ids)))
    ensures Strings(ToJson(ids)) == ids
  {
  }

  /** `Boolean` of any object, even an empty one, is true, so a body whose
      `hideAmounts` is `{}` hides amounts; an object in place of a list
      fails the guard. */
  lemma ObjectsAreTruthy(users: seq<User>, userId: string, fields: map<string, Json>)
    requires FindById(users, userId).Some?
    ensures Patch(users, userId, map["hideAmounts" := JObj(fields)]).Ok?
    ensures Patch(users, userId, map["hideAmounts" := JObj(fields)]).value.prefs.hideAmounts
    ensures Patch(users, userId, map["quickExpenseCategories" := JObj(fields)]) == Err(400, ExpenseListError)
    ensures Patch(users, userId, map["quickIncomeCategories" := JObj(fields)]) == Err(400, IncomeListError)
  {
  }
}

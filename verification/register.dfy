/** The registration route: validate, refuse an e-mail address already in
    use, and create the account with the password hashed. */
module Register {
  import opened Common
  import opened Domain
  import opened Users
  import opened Validations

  /** A created account: the new table and the id the route answers with. */
  datatype Registered = Registered(users: seq<User>, userId: string)

  const InvalidInput := "Invalid input"
  const EmailExists := "An account with this email already exists"

  /** `POST`. The password hash, the id the database generates and the
      column defaults of a new user are parameters. */
  function Register(users: seq<User>, body: map<string, Json>, emailOk: string -> bool,
                    hash: string -> string, newId: string, currency: string): Reply<Registered>
  {
    match Parse(RegisterSchema, body, emailOk)
    case None => Err(400, InvalidInput)
    case Some(m) =>
      var email := StrOf(m, "email");
      if EmailTaken(users, email, None) then Err(400, EmailExists)
      else
        var u := User(newId, StrOf(m, "name"), email, hash(StrOf(m, "password")), currency, false, [], []);
        Ok(Registered(users + [u], newId))
  }

  /** Invalid input is a 400 with nothing created; valid input with an
      address some user already has is a 400 of its own; anything else
      creates the account. */
  lemma RegisterOutcome(users: seq<User>, body: map<string, Json>, emailOk: string -> bool,
                        hash: string -> string, newId: string, currency: string)
    ensures var r := Register(users, body, emailOk, hash, newId, currency);
      && (r == Err(400, InvalidInput) <==> Parse(RegisterSchema, body, emailOk).None?)
      && (r == Err(400, EmailExists) <==>
            Parse(RegisterSchema, body, emailOk).Some? && HasStr(body, "email")
            && exists j :: 0 <= j < |users| && users[j].email == body["email"].s)
      && (r.Ok? <==>
            Parse(RegisterSchema, body, emailOk).Some? && HasStr(body, "email")
            && forall j :: 0 <= j < |users| ==> users[j].email != body["email"].s)
  {
    if Parse(RegisterSchema, body, emailOk).Some? {
      RegisterAccepts(body, emailOk);
      RegisterFields(body, emailOk);
    }
  }

  /** A created account is the one new row, at the end, holding the name
      and address sent and the hash of the password sent. */
  lemma RegisterCreates(users: seq<User>, body: map<string, Json>, emailOk: string -> bool,
                        hash: string -> string, newId: string, currency: string)
    requires Register(users, body, emailOk, hash, newId, currency).Ok?
    ensures var r := Register(users, body, emailOk, hash, newId, currency).value;
      && |r.users| == |users| + 1
      && r.users[..|users|] == users
      && r.userId == newId
      && HasStr(body, "name") && HasStr(body, "email") && HasStr(body, "password")
      && var u := r.users[|users|];
      && u.id == newId && u.name == body["name"].s && u.email == body["email"].s
      && u.password == hash(body["password"].s)
      && !u.hideAmounts && u.quickExpenseCategories == [] && u.quickIncomeCategories == []
  {
    RegisterAccepts(body, emailOk);
    RegisterFields(body, emailOk);
  }

  /** A registration never gives two users the same address, and never two
      the same id when the generated id is fresh. */
  lemma RegisterKeepsUnique(users: seq<User>, body: map<string, Json>, emailOk: string -> bool,
                            hash: string -> string, newId: string, currency: string)
    requires UniqueEmails(users) && UniqueIds(users)
    requires forall j :: 0 <= j < |users| ==> users[j].id != newId
    requires Register(users, body, emailOk, hash, newId, currency).Ok?
    ensures var us := Register(users, body, emailOk, hash, newId, currency).value.users;
      UniqueEmails(us) && UniqueIds(us)
  {
  }

  /** One registration request: the body and the id the database would
      give the account. */
  datatype Request = Request(body: map<string, Json>, newId: string)

  /** Requests handled one after the other; a refused request changes
      nothing. */
  function RegisterAll(users: seq<User>, reqs: seq<Request>, emailOk: string -> bool,
                       hash: string -> string, currency: string): seq<User>
    decreases |reqs|
  {
    if |reqs| == 0 then users
    else
      var next := match Register(users, reqs[0].body, emailOk, hash, reqs[0].newId, currency)
        case Ok(r) => r.users
        case Err(_, _) => users;
      RegisterAll(next, reqs[1..], emailOk, hash, currency)
  }

  /** Handled one at a time, registrations keep e-mail addresses unique
      whatever the requests, and ids unique when every generated id is
      new. */
  lemma {:induction false} RegisterAllKeepsUnique(users: seq<User>, reqs: seq<Request>, emailOk: string -> bool,
                                                  hash: string -> string, currency: string)
    requires UniqueEmails(users) && UniqueIds(users)
    requires forall j, k :: 0 <= j < |users| && 0 <= k < |reqs| ==> users[j].id != reqs[k].newId
    requires forall k, l :: 0 <= k < l < |reqs| ==> reqs[k].newId != reqs[l].newId
    ensures UniqueEmails(RegisterAll(users, reqs, emailOk, hash, currency))
    ensures UniqueIds(RegisterAll(users, reqs, emailOk, hash, currency))
    decreases |reqs|
  {
    if |reqs| > 0 {
      var r := Register(users, reqs[0].body, emailOk, hash, reqs[0].newId, currency);
      var next := if r.Ok? then r.value.users else users;
      if r.Ok? {
        RegisterKeepsUnique(users, reqs[0].body, emailOk, hash, reqs[0].newId, currency);
        RegisterCreates(users, reqs[0].body, emailOk, hash, reqs[0].newId, currency);
        assert forall j :: 0 <= j < |users| ==> next[j] == users[j];
      }
      assert forall j, k :: 0 <= j < |next| && 0 <= k < |reqs[1..]| ==> next[j].id != reqs[1..][k].newId by {
        forall j, k | 0 <= j < |next| && 0 <= k < |reqs[1..]|
          ensures next[j].id != reqs[1..][k].newId
        {
          if j >= |users| {
            assert next[j].id == reqs[0].newId;
          }
        }
      }
      RegisterAllKeepsUnique(next, reqs[1..], emailOk, hash, currency);
    }
  }
}

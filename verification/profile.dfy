/** The profile route: reading the caller's name, address and currency,
    and updating them while keeping e-mail addresses unique. */
module Profile {
  import opened Common
  import opened Domain
  import opened Users
  import opened Validations

  /** The fields the route selects. */
  datatype ProfileView = ProfileView(name: string, email: string, currency: string)

  function ViewOf(u: User): ProfileView {
    ProfileView(u.name, u.email, u.currency)
  }

  const UserNotFound := "User not found"
  const InvalidInput := "Invalid input"
  const EmailInUse := "Email is already in use"
  const UpdateFailed := "Failed to update profile"

  /** `GET`: the caller's profile, or a 404 when the record is missing. */
  function GetProfile(users: seq<User>, userId: string): (r: Reply<ProfileView>)
    ensures r.Err? <==> forall j :: 0 <= j < |users| ==> users[j].id != userId
    ensures r.Err? ==> r == Err(404, UserNotFound)
    ensures r.Ok? ==> exists j :: 0 <= j < |users| && users[j].id == userId && r.value == ViewOf(users[j])
  {
    match FindById(users, userId)
    case None => Err(404, UserNotFound)
    case Some(i) => Ok(ViewOf(users[i]))
  }

  /** A successful update: the new table and the profile answered. */
  datatype Updated = Updated(users: seq<User>, view: ProfileView)

  /** `PATCH`: validate; refuse with 409 an address another user has;
      write name, address and currency. Updating a missing record throws
      inside the `try`, which answers 500. */
  function PatchProfile(users: seq<User>, userId: string, body: map<string, Json>,
                        emailOk: string -> bool): Reply<Updated>
  {
    match Parse(UpdateProfileSchema, body, emailOk)
    case None => Err(400, InvalidInput)
    case Some(m) =>
      var email := StrOf(m, "email");
      if EmailTaken(users, email, Some(userId)) then Err(409, EmailInUse)
      else
        match FindById(users, userId)
        case None => Err(500, UpdateFailed)
        case Some(i) =>
          var u := users[i].(name := StrOf(m, "name"), email := email, currency := StrOf(m, "currency"));
          Ok(Updated(users[i := u], ViewOf(u)))
  }

  /** On valid input the update is refused with 409 exactly when a user with
      a different id already has the requested address. */
  lemma PatchConflict(users: seq<User>, userId: string, body: map<string, Json>, emailOk: string -> bool)
    requires Parse(UpdateProfileSchema, body, emailOk).Some?
    ensures HasStr(body, "email")
    ensures PatchProfile(users, userId, body, emailOk) == Err(409, EmailInUse) <==>
      exists j :: 0 <= j < |users| && users[j].email == body["email"].s && users[j].id != userId
  {
    UpdateProfileAccepts(body, emailOk);
    UpdateProfileFields(body, emailOk);
  }

  /** Keeping one's own address is allowed when addresses are unique. */
  lemma PatchOwnEmail(users: seq<User>, userId: string, body: map<string, Json>, emailOk: string -> bool, i: nat)
    requires UniqueEmails(users) && UniqueIds(users)
    requires i < |users| && users[i].id == userId
    requires Parse(UpdateProfileSchema, body, emailOk).Some?
    requires HasStr(body, "email") && body["email"].s == users[i].email
    ensures PatchProfile(users, userId, body, emailOk).Ok?
  {
    UpdateProfileFields(body, emailOk);
  }

  /** A successful update changes the caller's name, address and currency
      to the values sent and nothing else, in no other record. */
  lemma PatchWrites(users: seq<User>, userId: string, body: map<string, Json>, emailOk: string -> bool)
    requires PatchProfile(users, userId, body, emailOk).Ok?
    ensures FindById(users, userId).Some?
    ensures HasStr(body, "name") && HasStr(body, "email") && HasStr(body, "currency")
    ensures var i, r := FindById(users, userId).value, PatchProfile(users, userId, body, emailOk).value;
      && |r.users| == |users|
      && (forall j :: 0 <= j < |users| && j != i ==> r.users[j] == users[j])
      && r.users[i] == users[i].(name := body["name"].s, email := body["email"].s, currency := body["currency"].s)
      && r.view == ProfileView(body["name"].s, body["email"].s, body["currency"].s)
  {
    UpdateProfileAccepts(body, emailOk);
    UpdateProfileFields(body, emailOk);
  }

  /** An update never leaves two users with the same address. */
  lemma PatchKeepsUnique(users: seq<User>, userId: string, body: map<string, Json>, emailOk: string -> bool)
    requires UniqueEmails(users) && UniqueIds(users)
    requires PatchProfile(users, userId, body, emailOk).Ok?
    ensures UniqueEmails(PatchProfile(users, userId, body, emailOk).value.users)
    ensures UniqueIds(PatchProfile(users, userId, body, emailOk).value.users)
  {
    var i := FindById(users, userId).value;
    var m := Parse(UpdateProfileSchema, body, emailOk).value;
    var us := PatchProfile(users, userId, body, emailOk).value.users;
    forall a, b | 0 <= a < b < |us|
      ensures us[a].email != us[b].email
    {
      if a == i || b == i {
        var other := if a == i then b else a;
        assert users[other].id != userId;
        assert !EmailTaken(users, StrOf(m, "email"), Some(userId));
      }
    }
  }
}

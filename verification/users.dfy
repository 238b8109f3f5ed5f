/** The user table as an in-memory sequence of records, with the two lookups
    the routes make: by id and by e-mail address. */
module Users {
  import opened Common
  import opened Domain
  import opened Seqs

  /** The position of the user with id `id`, if any (`findUnique` by id). */
  function FindById(users: seq<User>, id: string): (r: Option<nat>)
    ensures r.Some? ==> r.value < |users| && users[r.value].id == id
    ensures r.None? <==> forall j :: 0 <= j < |users| ==> users[j].id != id
  {
    FirstWhere(users, (u: User) => u.id == id)
  }

  /** Some user other than `self` (when given) already has `email`: the
      `findUnique`/`findFirst` by e-mail address, with `NOT: { id }`. */
  predicate EmailTaken(users: seq<User>, email: string, self: Option<string>) {
    exists j :: 0 <= j < |users| && users[j].email == email && Some(users[j].id) != self
  }

  /** No two users share an e-mail address. */
  predicate UniqueEmails(users: seq<User>) {
    forall i, j :: 0 <= i < j < |users| ==> users[i].email != users[j].email
  }

  /** No two users share an id. */
  predicate UniqueIds(users: seq<User>) {
    forall i, j :: 0 <= i < j < |users| ==> users[i].id != users[j].id
  }
}

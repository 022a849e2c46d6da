/**
 * The stored user record and the four finders that AuthRepository calls on
 * UsersRepository (getById, getUserByLoginOrEmail, getUserByEmail,
 * getUserByVerificationCode). Each finder is a `findOne`: it yields the
 * first record, in storage order, that matches.
 */
module Users {
  import opened Options
  import opened Search

  datatype User = User(
    id: string,
    login: string,
    email: string,
    passwordHash: string,
    passwordSalt: string,
    confirmationCode: string,
    isConfirmed: bool,
    createdAt: string)

  /** What a finder looks a user up by. */
  datatype Query =
    | ById(id: string)
    | ByLoginOrEmail(loginOrEmail: string)
    | ByEmail(email: string)
    | ByCode(code: string)

  predicate Matches(u: User, q: Query) {
    match q
    case ById(id) => u.id == id
    case ByLoginOrEmail(s) => u.login == s || u.email == s
    case ByEmail(e) => u.email == e
    case ByCode(c) => u.confirmationCode == c
  }

  /** The index of the first user matching `q`, if any. */
  function Find(users: seq<User>, q: Query): (r: Option<nat>)
    ensures r.None? <==> forall j :: 0 <= j < |users| ==> !Matches(users[j], q)
    ensures r.Some? ==> r.value < |users| && Matches(users[r.value], q)
    ensures r.Some? ==> forall j :: 0 <= j < r.value ==> !Matches(users[j], q)
  {
    FirstIndex(users, (u: User) => Matches(u, q))
  }

  /** The first match is determined by which records match, nothing else. */
  lemma FindDependsOnMatchesOnly(users: seq<User>, users': seq<User>, q: Query)
    requires |users| == |users'|
    requires forall j :: 0 <= j < |users| ==> (Matches(users[j], q) <==> Matches(users'[j], q))
    ensures Find(users, q) == Find(users', q)
  {
  }

  /** Appending a record only matters when nothing earlier matched. */
  lemma {:induction false} FindAppend(users: seq<User>, u: User, q: Query)
    ensures Find(users + [u], q) ==
      (if Find(users, q).Some? then Find(users, q)
       else if Matches(u, q) then Some(|users|)
       else None)
  {
    if |users| > 0 && !Matches(users[0], q) {
      assert (users + [u])[1..] == users[1..] + [u];
      FindAppend(users[1..], u, q);
    }
  }
}

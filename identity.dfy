/**
 * The identity lifecycle of AuthRepository as values: every operation is a
 * function from the user store before the call to what the call returns,
 * the store after it and the mail it hands to EmailsRepository.
 *
 * The collaborators are parameters: `Comparer` is HashService.comparePassword,
 * a `HashPair` is what HashService.generateHash returned, a `code` argument
 * is the value uuid's v4() returned, and a `mailResult` is what the mail
 * sender answered.
 */
module Identity {
  import opened Options
  import opened Users

  /** A salt and a hash as HashService.generateHash returns them. */
  datatype HashPair = HashPair(salt: string, hash: string)

  /** The fields of CreateUserDto. */
  datatype NewUser = NewUser(login: string, password: string, email: string)

  /** What getMe returns. */
  datatype Profile = Profile(userId: string, email: string, login: string)

  datatype MailKind = RegistrationConfirmation | PasswordRecovery

  /** One call into EmailsRepository: which mail, to which address, with which code. */
  datatype Mail = Mail(kind: MailKind, to: string, code: string)

  /** What a call returns, the user store after it, and the mail it sends (if any). */
  datatype Outcome<R> = Outcome(result: R, users: seq<User>, sent: Option<Mail>)

  /** HashService.comparePassword(plaintext, hash). */
  type Comparer = (string, string) -> bool

  /** The mails handed to the sender, after `sent` is handed over too. */
  function Posted(outbox: seq<Mail>, sent: Option<Mail>): (r: seq<Mail>)
    ensures sent.None? ==> r == outbox
    ensures sent.Some? ==> r == outbox + [sent.value]
  {
    match sent
    case None => outbox
    case Some(m) => outbox + [m]
  }

  ghost predicate HasCode(users: seq<User>, code: string) {
    exists i :: 0 <= i < |users| && users[i].confirmationCode == code
  }

  ghost predicate HasEmail(users: seq<User>, email: string) {
    exists i :: 0 <= i < |users| && users[i].email == email
  }

  ghost predicate HasId(users: seq<User>, id: string) {
    exists i :: 0 <= i < |users| && users[i].id == id
  }

  /** What v4() guarantees in practice: a non-empty code nobody holds yet. */
  ghost predicate FreshCode(users: seq<User>, code: string) {
    code != "" && !HasCode(users, code)
  }

  ghost predicate UniqueCodes(users: seq<User>) {
    forall i, j :: 0 <= i < j < |users| ==> users[i].confirmationCode != users[j].confirmationCode
  }

  /** `users` with user `i`'s confirmation code replaced by `code`. */
  function WithCode(users: seq<User>, i: nat, code: string): (r: seq<User>)
    requires i < |users|
    ensures |r| == |users| && r[i].confirmationCode == code
    ensures forall j :: 0 <= j < |users| && j != i ==> r[j] == users[j]
  {
    users[i := users[i].(confirmationCode := code)]
  }

  // ---------------------------------------------------------------------
  // The operations
  // ---------------------------------------------------------------------

  /** verifyUser: the user found by login or email, if the password matches its hash. */
  function VerifyUser(users: seq<User>, loginOrEmail: string, password: string, compare: Comparer): (r: Option<User>)
    ensures r.Some? ==> r.value in users && Matches(r.value, ByLoginOrEmail(loginOrEmail))
    ensures r.Some? ==> compare(password, r.value.passwordHash)
    ensures (forall j :: 0 <= j < |users| ==> !Matches(users[j], ByLoginOrEmail(loginOrEmail))) ==> r.None?
    ensures var f := Find(users, ByLoginOrEmail(loginOrEmail));
      f.Some? ==> r == (if compare(password, users[f.value].passwordHash) then Some(users[f.value]) else None)
  {
    match Find(users, ByLoginOrEmail(loginOrEmail))
    case None => None
    case Some(i) => if compare(password, users[i].passwordHash) then Some(users[i]) else None
  }

  /**
   * register: UsersRepository.createUser appends an unconfirmed user holding
   * the generated hash and the fresh code, then a confirmation mail goes to
   * that user's address with that code.
   */
  function Register(users: seq<User>, data: NewUser, id: string, createdAt: string, code: string, hashed: HashPair)
    : (o: Outcome<User>)
    ensures |o.users| == |users| + 1 && o.users[..|users|] == users && o.users[|users|] == o.result
    ensures o.result.id == id && o.result.login == data.login && o.result.email == data.email
    ensures o.result.createdAt == createdAt
    ensures !o.result.isConfirmed && o.result.confirmationCode == code
    ensures o.result.passwordHash == hashed.hash && o.result.passwordSalt == hashed.salt
    ensures o.sent == Some(Mail(RegistrationConfirmation, data.email, code))
  {
    var u := User(id, data.login, data.email, hashed.hash, hashed.salt, code, false, createdAt);
    Outcome(u, users + [u], Some(Mail(RegistrationConfirmation, u.email, u.confirmationCode)))
  }

  /** checkIsConfirmedEmail: whether the user holding `code` is confirmed. */
  function CheckIsConfirmedEmail(users: seq<User>, code: string): (r: bool)
    ensures r ==> exists i :: 0 <= i < |users| && users[i].confirmationCode == code && users[i].isConfirmed
    ensures !HasCode(users, code) ==> !r
    ensures UniqueCodes(users) ==>
      (r <==> exists i :: 0 <= i < |users| && users[i].confirmationCode == code && users[i].isConfirmed)
    ensures r <==>
      exists i :: 0 <= i < |users| && users[i].confirmationCode == code && users[i].isConfirmed &&
        forall j :: 0 <= j < i ==> users[j].confirmationCode != code
  {
    match Find(users, ByCode(code))
    case None => false
    case Some(i) =>
      assert forall j :: 0 <= j < i ==> users[j].confirmationCode != code by {
        assert forall j :: 0 <= j < i ==> !Matches(users[j], ByCode(code));
      }
      users[i].isConfirmed
  }

  /**
   * confirmEmail: false when no user holds `code` or that user is already
   * confirmed; otherwise that user becomes confirmed and the result is true.
   */
  function ConfirmEmail(users: seq<User>, code: string): (o: Outcome<bool>)
    ensures o.sent.None? && |o.users| == |users|
    ensures o.result <==> HasCode(users, code) && !CheckIsConfirmedEmail(users, code)
    ensures !o.result ==> o.users == users
    ensures o.result ==>
      exists i :: 0 <= i < |users| && users[i].confirmationCode == code &&
        (forall j :: 0 <= j < i ==> users[j].confirmationCode != code) &&
        !users[i].isConfirmed && o.users == users[i := users[i].(isConfirmed := true)]
    ensures CheckIsConfirmedEmail(o.users, code) <==> HasCode(users, code)
  {
    match Find(users, ByCode(code))
    case None => Outcome(false, users, None)
    case Some(i) =>
      if users[i].isConfirmed then Outcome(false, users, None)
      else
        var after := users[i := users[i].(isConfirmed := true)];
        FindDependsOnMatchesOnly(users, after, ByCode(code));
        Outcome(true, after, None)
  }

  /**
   * recoveryPassword: false for an unknown email; otherwise the user found by
   * email gets the fresh code, a recovery mail with that code is sent, and the
   * sender's answer is the result.
   */
  function RecoveryPassword(users: seq<User>, email: string, code: string, mailResult: bool): (o: Outcome<bool>)
    ensures !HasEmail(users, email) ==> o == Outcome(false, users, None)
    ensures HasEmail(users, email) ==> o.result == mailResult && o.sent == Some(Mail(PasswordRecovery, email, code))
    ensures HasEmail(users, email) ==>
      exists i :: 0 <= i < |users| && users[i].email == email &&
        (forall j :: 0 <= j < i ==> users[j].email != email) && o.users == WithCode(users, i, code)
  {
    match Find(users, ByEmail(email))
    case None => Outcome(false, users, None)
    case Some(i) =>
      var after := WithCode(users, i, code);
      Outcome(mailResult, after, Some(Mail(PasswordRecovery, after[i].email, after[i].confirmationCode)))
  }

  /**
   * newPassword: false for an unknown code, store unchanged; otherwise the
   * user holding the code gets the generated hash and salt, and nothing
   * else changes, the code included.
   */
  function NewPassword(users: seq<User>, recoveryCode: string, generated: HashPair): (o: Outcome<bool>)
    ensures o.sent.None? && |o.users| == |users|
    ensures o.result <==> HasCode(users, recoveryCode)
    ensures !o.result ==> o.users == users
    ensures o.result ==>
      exists i :: 0 <= i < |users| && users[i].confirmationCode == recoveryCode &&
        (forall j :: 0 <= j < i ==> users[j].confirmationCode != recoveryCode) &&
        o.users == users[i := users[i].(passwordHash := generated.hash, passwordSalt := generated.salt)]
  {
    match Find(users, ByCode(recoveryCode))
    case None => Outcome(false, users, None)
    case Some(i) =>
      Outcome(true, users[i := users[i].(passwordHash := generated.hash, passwordSalt := generated.salt)], None)
  }

  /** getMe: the id, email and login of the user with `userId`. */
  function GetMe(users: seq<User>, userId: string): (r: Option<Profile>)
    ensures r.Some? <==> HasId(users, userId)
    ensures r.Some? ==>
      exists i :: 0 <= i < |users| && users[i].id == userId &&
        (forall j :: 0 <= j < i ==> users[j].id != userId) &&
        r.value == Profile(userId, users[i].email, users[i].login)
  {
    match Find(users, ById(userId))
    case None => None
    case Some(i) => Some(Profile(users[i].id, users[i].email, users[i].login))
  }

  /**
   * resendConfirmationEmail: null for an unknown email or a confirmed user;
   * otherwise the user gets the fresh code, a confirmation mail with it is
   * sent, and the sender's answer is the result.
   */
  function ResendConfirmationEmail(users: seq<User>, email: string, code: string, mailResult: bool)
    : (o: Outcome<Option<bool>>)
    ensures o.result.None? ==> o.users == users && o.sent.None?
    ensures !HasEmail(users, email) ==> o.result.None?
    ensures var f := Find(users, ByEmail(email)); f.Some? && users[f.value].isConfirmed ==> o.result.None?
    ensures o.result.Some? ==>
      o.result.value == mailResult && o.sent == Some(Mail(RegistrationConfirmation, email, code))
    ensures o.result.Some? ==>
      exists i :: 0 <= i < |users| && users[i].email == email &&
        (forall j :: 0 <= j < i ==> users[j].email != email) &&
        !users[i].isConfirmed && o.users == WithCode(users, i, code)
    ensures var f := Find(users, ByEmail(email)); f.Some? && !users[f.value].isConfirmed ==> o.result.Some?
  {
    match Find(users, ByEmail(email))
    case None => Outcome(None, users, None)
    case Some(i) =>
      if users[i].isConfirmed then Outcome(None, users, None)
      else
        var after := WithCode(users, i, code);
        Outcome(Some(mailResult), after, Some(Mail(RegistrationConfirmation, after[i].email, after[i].confirmationCode)))
  }

  // ---------------------------------------------------------------------
  // Properties of single calls and of call sequences
  // ---------------------------------------------------------------------

  /** A second confirmEmail with the same code returns false. */
  lemma ConfirmEmailTwice(users: seq<User>, code: string)
    ensures !ConfirmEmail(ConfirmEmail(users, code).users, code).result
  {
    var o := ConfirmEmail(users, code);
    if !HasCode(users, code) {
      assert o.users == users;
    }
  }

  /**
   * A freshly registered user is found by its code: not yet confirmed, the
   * first confirmEmail succeeds, and afterwards checkIsConfirmedEmail is true.
   */
  lemma RegisterThenConfirm(users: seq<User>, data: NewUser, id: string, createdAt: string, code: string, hashed: HashPair)
    requires FreshCode(users, code)
    ensures var after := Register(users, data, id, createdAt, code, hashed).users;
      && !CheckIsConfirmedEmail(after, code)
      && ConfirmEmail(after, code).result
      && CheckIsConfirmedEmail(ConfirmEmail(after, code).users, code)
  {
    var r := Register(users, data, id, createdAt, code, hashed);
    assert r.users == users + [r.result];
    FindAppend(users, r.result, ByCode(code));
    assert Find(r.users, ByCode(code)) == Some(|users|);
  }

  /**
   * Sign-up end to end: register, confirm with the mailed code, then log in.
   * The right password yields the (now confirmed) new user, a wrong one null.
   */
  lemma SignUpThenLogIn(users: seq<User>, data: NewUser, id: string, createdAt: string, code: string,
                        hashed: HashPair, compare: Comparer, wrong: string)
    requires FreshCode(users, code)
    requires forall j :: 0 <= j < |users| ==> !Matches(users[j], ByLoginOrEmail(data.login))
    requires compare(data.password, hashed.hash) && !compare(wrong, hashed.hash)
    ensures var r := Register(users, data, id, createdAt, code, hashed);
      var c := ConfirmEmail(r.users, code);
      && r.sent == Some(Mail(RegistrationConfirmation, data.email, code))
      && c.result
      && VerifyUser(c.users, data.login, data.password, compare) == Some(r.result.(isConfirmed := true))
      && VerifyUser(c.users, data.login, wrong, compare) == None
  {
    var r := Register(users, data, id, createdAt, code, hashed);
    assert r.users == users + [r.result];
    FindAppend(users, r.result, ByCode(code));
    FindAppend(users, r.result, ByLoginOrEmail(data.login));
    var c := ConfirmEmail(r.users, code);
    assert c.users == r.users[|users| := r.result.(isConfirmed := true)];
    FindDependsOnMatchesOnly(r.users, c.users, ByLoginOrEmail(data.login));
  }

  /** newPassword leaves the code in place, so the same code works again. */
  lemma NewPasswordCodeReusable(users: seq<User>, code: string, first: HashPair, second: HashPair)
    requires NewPassword(users, code, first).result
    ensures NewPassword(NewPassword(users, code, first).users, code, second).result
  {
    var after := NewPassword(users, code, first).users;
    var i :| 0 <= i < |users| && users[i].confirmationCode == code &&
      after == users[i := users[i].(passwordHash := first.hash, passwordSalt := first.salt)];
    assert after[i].confirmationCode == code;
  }

  /**
   * After newPassword with a hash that accepts `password`, the user holding
   * the code logs in with `password` under its own login.
   */
  lemma NewPasswordThenLogIn(users: seq<User>, code: string, generated: HashPair, compare: Comparer, password: string)
    requires Find(users, ByCode(code)).Some?
    requires var i := Find(users, ByCode(code)).value; Find(users, ByLoginOrEmail(users[i].login)) == Some(i)
    requires compare(password, generated.hash)
    ensures var i := Find(users, ByCode(code)).value;
      var n := NewPassword(users, code, generated);
      && n.result
      && VerifyUser(n.users, users[i].login, password, compare) == Some(n.users[i])
      && n.users[i].passwordHash == generated.hash
  {
    var i := Find(users, ByCode(code)).value;
    var n := NewPassword(users, code, generated);
    FindDependsOnMatchesOnly(users, n.users, ByLoginOrEmail(users[i].login));
  }

  /**
   * Password recovery end to end: the code mailed by recoveryPassword opens
   * newPassword for exactly the user found by email, which then holds the
   * generated hash and salt and still holds the code.
   */
  lemma RecoveryThenNewPassword(users: seq<User>, email: string, code: string, mailResult: bool, generated: HashPair)
    requires FreshCode(users, code) && HasEmail(users, email)
    ensures Find(users, ByEmail(email)).Some?
    ensures var i := Find(users, ByEmail(email)).value;
      var r := RecoveryPassword(users, email, code, mailResult);
      var n := NewPassword(r.users, code, generated);
      && r.sent == Some(Mail(PasswordRecovery, email, code))
      && n.result
      && n.users == users[i := users[i].(confirmationCode := code,
                                       passwordHash := generated.hash, passwordSalt := generated.salt)]
  {
    var i := Find(users, ByEmail(email)).value;
    var r := RecoveryPassword(users, email, code, mailResult);
    assert r.users == WithCode(users, i, code);
    assert forall j :: 0 <= j < |users| && j != i ==> r.users[j].confirmationCode != code;
    assert Find(r.users, ByCode(code)) == Some(i);
  }

  /** With distinct codes, recoveryPassword revokes the code the user held before. */
  lemma RecoveryRevokesOldCode(users: seq<User>, email: string, code: string, mailResult: bool, generated: HashPair)
    requires FreshCode(users, code) && HasEmail(users, email) && UniqueCodes(users)
    ensures Find(users, ByEmail(email)).Some?
    ensures var old_code := users[Find(users, ByEmail(email)).value].confirmationCode;
      var r := RecoveryPassword(users, email, code, mailResult);
      !NewPassword(r.users, old_code, generated).result && !ConfirmEmail(r.users, old_code).result
  {
    var i := Find(users, ByEmail(email)).value;
    var oldCode := users[i].confirmationCode;
    var r := RecoveryPassword(users, email, code, mailResult);
    assert r.users == WithCode(users, i, code);
    assert code != oldCode;
    forall j | 0 <= j < |users| ensures r.users[j].confirmationCode != oldCode {
      if j != i {
        assert users[j].confirmationCode != users[i].confirmationCode;
      }
    }
  }

  /** Every state-changing call of AuthRepository, with its oracle values. */
  datatype Op =
    | Registration(data: NewUser, id: string, createdAt: string, code: string, hashed: HashPair)
    | Confirmation(code: string)
    | Recovery(email: string, code: string, mailResult: bool)
    | PasswordReset(recoveryCode: string, generated: HashPair)
    | Resend(email: string, code: string, mailResult: bool)

  /** The user store after `op`. */
  function Step(users: seq<User>, op: Op): (after: seq<User>) {
    match op
    case Registration(data, id, createdAt, code, hashed) => Register(users, data, id, createdAt, code, hashed).users
    case Confirmation(code) => ConfirmEmail(users, code).users
    case Recovery(email, code, mailResult) => RecoveryPassword(users, email, code, mailResult).users
    case PasswordReset(code, generated) => NewPassword(users, code, generated).users
    case Resend(email, code, mailResult) => ResendConfirmationEmail(users, email, code, mailResult).users
  }

  /** The user store after `ops`, first to last. */
  function Run(users: seq<User>, ops: seq<Op>): (after: seq<User>)
    decreases |ops|
  {
    if ops == [] then users else Run(Step(users, ops[0]), ops[1..])
  }

  /** The code `op` hands out, if it hands one out, is fresh in `users`. */
  ghost predicate CodeFresh(users: seq<User>, op: Op) {
    match op
    case Registration(_, _, _, code, _) => FreshCode(users, code)
    case Recovery(_, code, _) => FreshCode(users, code)
    case Resend(_, code, _) => FreshCode(users, code)
    case _ => true
  }

  /** As long as every handed-out code is fresh, no two users share a code. */
  lemma StepKeepsUniqueCodes(users: seq<User>, op: Op)
    requires UniqueCodes(users) && CodeFresh(users, op)
    ensures UniqueCodes(Step(users, op))
  {
    match op
    case Registration(data, id, createdAt, code, hashed) =>
      var after := Step(users, op);
      assert forall i :: 0 <= i < |users| ==> after[i] == users[i] by {
        assert forall i :: 0 <= i < |users| ==> after[i] == after[..|users|][i];
      }
    case Confirmation(code) =>
    case Recovery(email, code, mailResult) =>
    case PasswordReset(code, generated) =>
    case Resend(email, code, mailResult) =>
  }

  /** Every call of `ops` hands out a code nobody holds at that point. */
  ghost predicate CodesFresh(users: seq<User>, ops: seq<Op>)
    decreases |ops|
  {
    ops == [] || (CodeFresh(users, ops[0]) && CodesFresh(Step(users, ops[0]), ops[1..]))
  }

  /** Distinct codes stay distinct over a whole sequence of calls with fresh codes. */
  lemma {:induction false} RunKeepsUniqueCodes(users: seq<User>, ops: seq<Op>)
    requires UniqueCodes(users) && CodesFresh(users, ops)
    ensures UniqueCodes(Run(users, ops))
    decreases |ops|
  {
    if ops != [] {
      StepKeepsUniqueCodes(users, ops[0]);
      RunKeepsUniqueCodes(Step(users, ops[0]), ops[1..]);
    }
  }

  /** What no call ever takes away from a stored user. */
  predicate Keeps(before: User, after: User) {
    && after.id == before.id
    && after.login == before.login
    && after.email == before.email
    && after.createdAt == before.createdAt
    && (before.isConfirmed ==> after.isConfirmed)
  }

  /** No user is removed, identity fields are fixed, and confirmation is never undone. */
  predicate Evolves(before: seq<User>, after: seq<User>) {
    |before| <= |after| && forall i :: 0 <= i < |before| ==> Keeps(before[i], after[i])
  }

  lemma StepEvolves(users: seq<User>, op: Op)
    ensures Evolves(users, Step(users, op))
  {
    match op
    case Registration(data, id, createdAt, code, hashed) =>
      var after := Register(users, data, id, createdAt, code, hashed).users;
      assert forall i :: 0 <= i < |users| ==> after[i] == after[..|users|][i];
    case Confirmation(code) =>
    case Recovery(email, code, mailResult) =>
    case PasswordReset(code, generated) =>
    case Resend(email, code, mailResult) =>
  }

  lemma EvolvesTransitive(a: seq<User>, b: seq<User>, c: seq<User>)
    requires Evolves(a, b) && Evolves(b, c)
    ensures Evolves(a, c)
  {
    forall i | 0 <= i < |a| ensures Keeps(a[i], c[i]) {
      assert Keeps(a[i], b[i]) && Keeps(b[i], c[i]);
    }
  }

  /** Over any sequence of calls: isConfirmed only goes from false to true, and no user disappears. */
  lemma {:induction false} RunEvolves(users: seq<User>, ops: seq<Op>)
    ensures Evolves(users, Run(users, ops))
    decreases |ops|
  {
    if ops != [] {
      StepEvolves(users, ops[0]);
      RunEvolves(Step(users, ops[0]), ops[1..]);
      EvolvesTransitive(users, Step(users, ops[0]), Run(users, ops));
    }
  }

  /**
   * confirmEmail is the only call that writes isConfirmed: every other call
   * leaves it as it was on every stored user, and register adds an
   * unconfirmed one.
   */
  lemma OnlyConfirmEmailConfirms(users: seq<User>, op: Op)
    requires !op.Confirmation?
    ensures |Step(users, op)| >= |users|
    ensures forall i :: 0 <= i < |users| ==> Step(users, op)[i].isConfirmed == users[i].isConfirmed
    ensures op.Registration? ==> !Step(users, op)[|users|].isConfirmed
  {
    StepEvolves(users, op);
    if op.Registration? {
      var after := Step(users, op);
      assert forall i :: 0 <= i < |users| ==> after[i] == after[..|users|][i];
    }
  }
}

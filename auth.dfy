/**
 * AuthRepository (src/auth/auth.repository.ts) as a class over the user
 * store it reads and writes through UsersRepository. `users` is the stored
 * collection in storage order; `outbox` is the sequence of mails handed to
 * EmailsRepository so far. Each method finds a record, assigns its fields
 * and saves it, and its postcondition ties the result and the new state to
 * the function of the same name in Identity.
 */
module Auth {
  import opened Options
  import opened Users
  import Identity

  class AuthRepository {
    var users: seq<User>
    var outbox: seq<Identity.Mail>
    /** The injected HashService's comparePassword. */
    const comparePassword: Identity.Comparer

    constructor (existing: seq<User>, compare: Identity.Comparer)
      ensures users == existing && outbox == [] && comparePassword == compare
    {
      users := existing;
      outbox := [];
      comparePassword := compare;
    }

    method VerifyUser(loginOrEmail: string, password: string) returns (r: Option<User>)
      ensures r == Identity.VerifyUser(users, loginOrEmail, password, comparePassword)
    {
      var found := Find(users, ByLoginOrEmail(loginOrEmail));
      if found.None? {
        return None;
      }
      var user := users[found.value];
      var checkedPassword := comparePassword(password, user.passwordHash);
      if !checkedPassword {
        return None;
      }
      return Some(user);
    }

    /** `id`, `createdAt`, `code` and `hashed` are what createUser's collaborators produced. */
    method Register(data: Identity.NewUser, id: string, createdAt: string, code: string, hashed: Identity.HashPair)
      returns (user: User)
      modifies this
      ensures var o := Identity.Register(old(users), data, id, createdAt, code, hashed);
        user == o.result && users == o.users && outbox == Identity.Posted(old(outbox), o.sent)
    {
      user := User(id, data.login, data.email, hashed.hash, hashed.salt, code, false, createdAt);
      users := users + [user];
      outbox := outbox + [Identity.Mail(Identity.RegistrationConfirmation, user.email, user.confirmationCode)];
    }

    method ConfirmEmail(code: string) returns (ok: bool)
      modifies this
      ensures var o := Identity.ConfirmEmail(old(users), code);
        ok == o.result && users == o.users && outbox == old(outbox)
    {
      var found := Find(users, ByCode(code));
      if found.None? {
        return false;
      }
      var i := found.value;
      if users[i].isConfirmed {
        return false;
      }
      users := users[i := users[i].(isConfirmed := true)];
      ok := true;
    }

    method CheckIsConfirmedEmail(code: string) returns (confirmed: bool)
      ensures confirmed == Identity.CheckIsConfirmedEmail(users, code)
    {
      var found := Find(users, ByCode(code));
      if found.None? {
        return false;
      }
      if users[found.value].isConfirmed {
        return true;
      }
      return false;
    }

    /** `code` is the value v4() returned; `mailResult` is the recovery mail sender's answer. */
    method RecoveryPassword(email: string, code: string, mailResult: bool) returns (ok: bool)
      modifies this
      ensures var o := Identity.RecoveryPassword(old(users), email, code, mailResult);
        ok == o.result && users == o.users && outbox == Identity.Posted(old(outbox), o.sent)
    {
      var found := Find(users, ByEmail(email));
      if found.None? {
        return false;
      }
      var i := found.value;
      users := users[i := users[i].(confirmationCode := code)];
      outbox := outbox + [Identity.Mail(Identity.PasswordRecovery, users[i].email, users[i].confirmationCode)];
      ok := mailResult;
    }

    /**
     * `generated` is what HashService.generateHash returned for the new
     * password; it is computed before the lookup, whatever the lookup finds.
     */
    method NewPassword(recoveryCode: string, generated: Identity.HashPair) returns (ok: bool)
      modifies this
      ensures var o := Identity.NewPassword(old(users), recoveryCode, generated);
        ok == o.result && users == o.users && outbox == old(outbox)
    {
      var found := Find(users, ByCode(recoveryCode));
      if found.None? {
        return false;
      }
      var i := found.value;
      users := users[i := users[i].(passwordHash := generated.hash, passwordSalt := generated.salt)];
      ok := true;
    }

    method GetMe(userId: string) returns (me: Option<Identity.Profile>)
      ensures me == Identity.GetMe(users, userId)
    {
      var found := Find(users, ById(userId));
      if found.None? {
        return None;
      }
      var user := users[found.value];
      return Some(Identity.Profile(user.id, user.email, user.login));
    }

    /** `code` is the value v4() returned; `mailResult` is the confirmation mail sender's answer. */
    method ResendConfirmationEmail(email: string, code: string, mailResult: bool) returns (r: Option<bool>)
      modifies this
      ensures var o := Identity.ResendConfirmationEmail(old(users), email, code, mailResult);
        r == o.result && users == o.users && outbox == Identity.Posted(old(outbox), o.sent)
    {
      var found := Find(users, ByEmail(email));
      if found.None? {
        return None;
      }
      var i := found.value;
      if users[i].isConfirmed {
        return None;
      }
      users := users[i := users[i].(confirmationCode := code)];
      outbox := outbox + [Identity.Mail(Identity.RegistrationConfirmation, users[i].email, users[i].confirmationCode)];
      r := Some(mailResult);
    }
  }

  /**
   * A caller's view of the repository: a second confirmEmail with the same
   * code is answered false, and checkIsConfirmedEmail then holds exactly when
   * some user had that code.
   */
  method ConfirmTwice(repo: AuthRepository, code: string) returns (first: bool, second: bool)
    modifies repo
    ensures !second
    ensures first <==> Identity.HasCode(old(repo.users), code) && !Identity.CheckIsConfirmedEmail(old(repo.users), code)
    ensures Identity.CheckIsConfirmedEmail(repo.users, code) <==> Identity.HasCode(old(repo.users), code)
  {
    first := repo.ConfirmEmail(code);
    second := repo.ConfirmEmail(code);
    Identity.ConfirmEmailTwice(old(repo.users), code);
  }
}

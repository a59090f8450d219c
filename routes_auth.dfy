/** The `/register` and `/login` handlers of backend/routes/auth.js.
    Password hashing, password comparison and token signing are the
    collaborators `hash`, `compare` and `sign`; the clock is `now`
    (milliseconds); each store write may fail as its flag says. */
module AuthRoutes {
  import opened Wrappers
  import opened Records
  import opened Store
  import Middleware

  /** bcrypt work factor used for new password hashes. */
  const BcryptRounds: nat := 10
  /** `expiresIn: '30d'`, in seconds. */
  const TokenLifetimeSeconds: nat := 30 * 24 * 60 * 60
  /** Length of the trial: 14 days in milliseconds. */
  const TrialPeriodMs: int := 14 * 24 * 60 * 60 * 1000
  const MinPasswordLength: nat := 6
  /** `minutes_used` is not written at registration; the table's default is
      taken to be zero. */
  const InitialMinutesUsed: int := 0

  datatype RegisterBody = RegisterBody(
    companyName: Option<string>, email: Option<string>,
    password: Option<string>, name: Option<string>)

  datatype LoginBody = LoginBody(email: Option<string>, password: Option<string>)

  // ---------------------------------------------------------------------
  // /register
  // ---------------------------------------------------------------------

  /** The two input checks of `/register`, in order: all of companyName,
      email and password present (truthy), then a password of at least six
      characters. */
  function ValidateRegistration(body: RegisterBody): (r: Option<ErrorKind>)
    ensures r.None? <==>
      Truthy(body.companyName) && Truthy(body.email) && Truthy(body.password)
      && |body.password.value| >= MinPasswordLength
    ensures r == Some(FieldsMissing) <==>
      !(Truthy(body.companyName) && Truthy(body.email) && Truthy(body.password))
    ensures r == Some(PasswordTooShort) <==>
      Truthy(body.companyName) && Truthy(body.email) && Truthy(body.password)
      && |body.password.value| < MinPasswordLength
  {
    if !Truthy(body.companyName) || !Truthy(body.email) || !Truthy(body.password) then
      Some(FieldsMissing)
    else if |body.password.value| < MinPasswordLength then
      Some(PasswordTooShort)
    else
      None
  }

  /** `name || companyName`. */
  function DisplayName(body: RegisterBody): string
    requires Truthy(body.companyName)
  {
    if Truthy(body.name) then body.name.value else body.companyName.value
  }

  /** The company row registration inserts (the store replaces `id`): a
      trial with a 100-minute quota, 3 managers and a 14-day trial window. */
  function TrialCompany(id: Id, name: string, email: string, now: int): Company
  {
    Company(id := id, name := name, email := email,
            status := Trial, subscriptionPlan := "trial",
            trialEndsAt := now + TrialPeriodMs,
            minutesUsed := InitialMinutesUsed, minutesLimit := 100, managersLimit := 3)
  }

  /** What the email pre-check yields: the store's answer to `.single()`, or
      no data when the read itself fails (the handler ignores the read's
      error and sees only that no user came back). */
  function PrecheckResult(users: map<Id, User>, email: string, readFails: bool): Option<Id>
  {
    if readFails then None else SingleUser(users, email)
  }

  /** The request passes validation and the email pre-check, so the handler
      goes on to write. */
  predicate RegistrationAdmitted(body: RegisterBody, users: map<Id, User>, precheckReadFails: bool)
  {
    ValidateRegistration(body).None? && PrecheckResult(users, body.email.value, precheckReadFails).None?
  }

  /** `POST /register`. Validation and the email pre-check come before any
      write; the company is inserted, then its owner; when the owner cannot
      be inserted the company is deleted again. */
  method Register(db: Db, body: RegisterBody, now: int,
                  hash: (string, nat) -> string, sign: (Claims, nat) -> string,
                  precheckReadFails: bool, companyInsertFails: bool, userInsertFails: bool)
    returns (resp: Response)
    requires db.Valid()
    modifies db
    ensures db.Valid()
    // invalid input: 400, nothing read or written
    ensures ValidateRegistration(body).Some? ==>
      resp == Fail(ValidateRegistration(body).value) && unchanged(db)
    // the email is already registered: 400, nothing written
    ensures ValidateRegistration(body).None? && !precheckReadFails
            && SingleUser(old(db.users), body.email.value).Some? ==>
      resp == Fail(EmailTaken) && unchanged(db)
    // the company insert fails: 500, no user insert attempted
    ensures RegistrationAdmitted(body, old(db.users), precheckReadFails) && companyInsertFails ==>
      resp == Fail(CompanyCreateFailed) && unchanged(db)
    // the user insert fails: 500, and the company is deleted again
    ensures RegistrationAdmitted(body, old(db.users), precheckReadFails) && !companyInsertFails && userInsertFails ==>
      && resp == Fail(UserCreateFailed)
      && db.companies == old(db.companies)
      && db.users == old(db.users)
    // success: one new trial company, one new owner linked to it, and a
    // token and summary carrying the new ids
    ensures RegistrationAdmitted(body, old(db.users), precheckReadFails) && !companyInsertFails && !userInsertFails ==>
      var cid, uid := old(db.nextId), old(db.nextId) + 1;
      var email := body.email.value;
      && cid !in old(db.companies) && uid !in old(db.users)
      && db.companies == old(db.companies)[cid := TrialCompany(cid, body.companyName.value, email, now)]
      && db.users == old(db.users)[uid := User(uid, cid, email, hash(body.password.value, BcryptRounds),
                                               DisplayName(body), Owner)]
      && resp == Response(200, Registered(
           sign(Claims(uid, cid, email, Owner), TokenLifetimeSeconds),
           RegisteredUser(uid, email, DisplayName(body), cid, body.companyName.value, now + TrialPeriodMs)))
    ensures resp.status == 200 <==>
      RegistrationAdmitted(body, old(db.users), precheckReadFails) && !companyInsertFails && !userInsertFails
    // the table invariants registration keeps; email uniqueness only while
    // the pre-check read succeeds
    ensures EmailsUnique(old(db.users)) && !precheckReadFails ==> EmailsUnique(db.users)
    ensures precheckReadFails && RegistrationAdmitted(body, old(db.users), precheckReadFails)
            && !companyInsertFails && !userInsertFails
            && (exists id :: id in old(db.users) && old(db.users)[id].email == body.email.value) ==>
      !EmailsUnique(db.users)
    ensures UsersHaveCompanies(old(db.users), old(db.companies)) ==> UsersHaveCompanies(db.users, db.companies)
  {
    var invalid := ValidateRegistration(body);
    if invalid.Some? {
      return Fail(invalid.value);
    }
    var companyName, email, password := body.companyName.value, body.email.value, body.password.value;

    var existingUser := PrecheckResult(db.users, email, precheckReadFails);
    if existingUser.Some? {
      return Fail(EmailTaken);
    }
    if EmailsUnique(db.users) && !precheckReadFails {
      SingleFindsUnique(db.users, email);
    }

    var passwordHash := hash(password, BcryptRounds);

    var company := db.InsertCompany(TrialCompany(0, companyName, email, now), companyInsertFails);
    if company.None? {
      return Fail(CompanyCreateFailed);
    }

    var user := db.InsertUser(User(0, company.value.id, email, passwordHash, DisplayName(body), Owner),
                              userInsertFails);
    if user.None? {
      db.DeleteCompany(company.value.id);
      assert db.companies == old(db.companies);
      return Fail(UserCreateFailed);
    }

    if precheckReadFails && exists id :: id in old(db.users) && old(db.users)[id].email == email {
      var id :| id in old(db.users) && old(db.users)[id].email == email;
      assert id in db.users && db.users[id].email == email && id != user.value.id;
      assert db.users[user.value.id].email == email;
    }

    var token := sign(Claims(user.value.id, company.value.id, user.value.email, user.value.role),
                      TokenLifetimeSeconds);
    resp := Response(200, Registered(token, RegisteredUser(
      user.value.id, user.value.email, user.value.name,
      company.value.id, company.value.name, company.value.trialEndsAt)));
  }

  // ---------------------------------------------------------------------
  // /login
  // ---------------------------------------------------------------------

  /** The token and summary of a successful login of user `u`, whose
      company is `c`. */
  function LoginSuccess(u: User, c: Company, sign: (Claims, nat) -> string): Response
  {
    Response(200, LoggedIn(
      sign(Claims(u.id, u.companyId, u.email, u.role), TokenLifetimeSeconds),
      LoggedInUser(u.id, u.email, u.name, u.companyId, c.name, c.subscriptionPlan,
                   c.minutesUsed, c.minutesLimit)))
  }

  /** `POST /login`: missing fields 400; an unknown email and a wrong
      password both 401 with one body; a user whose company row is gone
      makes the handler fail (500); otherwise a token for the stored user. */
  function Login(users: map<Id, User>, companies: map<Id, Company>, body: LoginBody,
                 compare: (string, string) -> bool, sign: (Claims, nat) -> string): (r: Response)
    ensures !Truthy(body.email) || !Truthy(body.password) ==> r == Fail(CredentialsMissing)
    ensures r.status == 401 ==> r == Fail(BadCredentials)
    ensures r.status == 401 <==>
      && Truthy(body.email) && Truthy(body.password)
      && (|| SingleUser(users, body.email.value).None?
          || !compare(body.password.value, users[SingleUser(users, body.email.value).value].passwordHash))
    ensures r.status == 200 <==>
      && Truthy(body.email) && Truthy(body.password)
      && SingleUser(users, body.email.value).Some?
      && var u := users[SingleUser(users, body.email.value).value];
         compare(body.password.value, u.passwordHash) && u.companyId in companies
    ensures r.status == 200 ==>
      var u := users[SingleUser(users, body.email.value).value];
      && r == LoginSuccess(u, companies[u.companyId], sign)
      && r.body.token == sign(Claims(u.id, u.companyId, body.email.value, u.role), TokenLifetimeSeconds)
    ensures (&& Truthy(body.email) && Truthy(body.password)
             && SingleUser(users, body.email.value).Some?
             && (var u := users[SingleUser(users, body.email.value).value];
                 compare(body.password.value, u.passwordHash) && u.companyId !in companies))
            ==> r == Fail(ServerError)
  {
    if !Truthy(body.email) || !Truthy(body.password) then
      Fail(CredentialsMissing)
    else
      match SingleUser(users, body.email.value)
      case None => Fail(BadCredentials)
      case Some(id) =>
        var u := users[id];
        if !compare(body.password.value, u.passwordHash) then
          Fail(BadCredentials)
        else if u.companyId !in companies then
          Fail(ServerError)
        else
          LoginSuccess(u, companies[u.companyId], sign)
  }

  /** An unknown email and a wrong password for a known one get the same
      answer, so a caller cannot tell which was wrong. */
  lemma LoginFailuresIndistinguishable(
      users: map<Id, User>, companies: map<Id, Company>, unknown: LoginBody, wrongPassword: LoginBody,
      compare: (string, string) -> bool, sign: (Claims, nat) -> string)
    requires Truthy(unknown.email) && Truthy(unknown.password)
    requires Truthy(wrongPassword.email) && Truthy(wrongPassword.password)
    requires SingleUser(users, unknown.email.value).None?
    requires SingleUser(users, wrongPassword.email.value).Some?
    requires !compare(wrongPassword.password.value, users[SingleUser(users, wrongPassword.email.value).value].passwordHash)
    ensures Login(users, companies, unknown, compare, sign) == Login(users, companies, wrongPassword, compare, sign)
    ensures Login(users, companies, unknown, compare, sign).status == 401
  {
  }

  /** With unique emails, a stored user who presents a password matching the
      stored hash logs in, and the token's claims come from that row: its id,
      its company and its role. */
  lemma {:induction false} StoredUserLogsIn(
      users: map<Id, User>, companies: map<Id, Company>, uid: Id, password: string,
      compare: (string, string) -> bool, sign: (Claims, nat) -> string)
    requires EmailsUnique(users)
    requires uid in users && users[uid].email != "" && password != ""
    requires compare(password, users[uid].passwordHash)
    requires users[uid].companyId in companies
    ensures Login(users, companies, LoginBody(Some(users[uid].email), Some(password)), compare, sign)
         == LoginSuccess(users[uid], companies[users[uid].companyId], sign)
  {
    assert UsersWithEmail(users, users[uid].email) == {uid};
  }

  /** A token produced at registration opens the request gate with the same
      claims, given a codec that accepts what it signs and tokens without
      spaces (compact JWTs have none). */
  lemma {:induction false} RegisteredTokenOpensGate(
      claims: Claims, sign: (Claims, nat) -> string, verify: string -> Option<Claims>)
    requires verify(sign(claims, TokenLifetimeSeconds)) == Some(claims)
    requires sign(claims, TokenLifetimeSeconds) != "" && ' ' !in sign(claims, TokenLifetimeSeconds)
    ensures Middleware.Authenticate(Some("Bearer " + sign(claims, TokenLifetimeSeconds)), verify) == Success(claims)
  {
    Middleware.BearerTokenVerified(sign(claims, TokenLifetimeSeconds), verify);
  }

  /** Registering the same email twice: once the first registration has
      succeeded, the second is refused with 400 and writes nothing, so the
      emails in `users` stay unique. */
  method RegisterTwice(db: Db, body: RegisterBody, now: int,
                       hash: (string, nat) -> string, sign: (Claims, nat) -> string)
    returns (first: Response, second: Response)
    requires db.Valid() && EmailsUnique(db.users)
    modifies db
    ensures db.Valid() && EmailsUnique(db.users)
    ensures first.status == 200 ==> second == Fail(EmailTaken)
  {
    first := Register(db, body, now, hash, sign, false, false, false);
    ghost var afterFirst := db.users;
    second := Register(db, body, now, hash, sign, false, false, false);
    if first.status == 200 {
      SingleFindsUnique(afterFirst, body.email.value);
      assert afterFirst[old(db.nextId) + 1].email == body.email.value;
    }
  }
}

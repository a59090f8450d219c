/** The rows of the two tables, the session claims carried by a token, and the
    HTTP responses the handlers send. */
module Records {
  import opened Wrappers

  /** Row ids are assigned by the store. */
  type Id = nat

  /** Subscription status of a company (`companies.status`). */
  datatype Status = Trial | Active | Suspended

  /** Role of a user (`users.role`); registration only creates owners. */
  datatype Role = Owner | OtherRole(name: string)

  datatype Company = Company(
    id: Id,
    name: string,
    email: string,
    status: Status,
    subscriptionPlan: string,
    trialEndsAt: int,       // milliseconds since the epoch
    minutesUsed: int,
    minutesLimit: int,
    managersLimit: int)

  datatype User = User(
    id: Id,
    companyId: Id,
    email: string,
    passwordHash: string,
    name: string,
    role: Role)

  /** The payload signed into a session token. */
  datatype Claims = Claims(userId: Id, companyId: Id, email: string, role: Role)

  /** JavaScript truthiness of an optional string field: `undefined`, `null`
      and `''` are falsy. */
  predicate Truthy(field: Option<string>)
  {
    field.Some? && field.value != ""
  }

  /** Every error the handlers and middleware answer with; the message texts
      of the source are represented by these kinds. */
  datatype ErrorKind =
    | AuthorizationRequired   // no token in the Authorization header
    | InvalidToken            // the token does not verify
    | CompanyNotFound
    | SubscriptionSuspended
    | MinutesExhausted
    | FieldsMissing           // register: companyName, email or password missing
    | PasswordTooShort
    | EmailTaken
    | CompanyCreateFailed
    | UserCreateFailed
    | CredentialsMissing      // login: email or password missing
    | BadCredentials          // login: unknown email or wrong password
    | ServerError             // the catch-all of a handler

  /** The HTTP status each error is sent with. */
  function StatusOf(kind: ErrorKind): int
  {
    match kind
    case AuthorizationRequired | InvalidToken | BadCredentials => 401
    case CompanyNotFound => 404
    case SubscriptionSuspended | MinutesExhausted => 403
    case FieldsMissing | PasswordTooShort | EmailTaken | CredentialsMissing => 400
    case CompanyCreateFailed | UserCreateFailed | ServerError => 500
  }

  /** The `user` object of a successful registration. */
  datatype RegisteredUser = RegisteredUser(
    id: Id, email: string, name: string,
    companyId: Id, companyName: string, trialEndsAt: int)

  /** The `user` object of a successful login. */
  datatype LoggedInUser = LoggedInUser(
    id: Id, email: string, name: string,
    companyId: Id, companyName: string, subscriptionPlan: string,
    minutesUsed: int, minutesLimit: int)

  datatype Body =
    | ErrorBody(error: ErrorKind)
    | LimitBody(error: ErrorKind, minutesUsed: int, minutesLimit: int)
    | Registered(token: string, registered: RegisteredUser)
    | LoggedIn(token: string, loggedIn: LoggedInUser)

  datatype Response = Response(status: int, body: Body)

  /** The response for an error kind: its status and `{ error }` body. */
  function Fail(kind: ErrorKind): Response
  {
    Response(StatusOf(kind), ErrorBody(kind))
  }

  /** What a middleware does with a request: hand it on with `next()`, or
      answer it and stop. */
  datatype GateResult = Next | Halt(response: Response)
}

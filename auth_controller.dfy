/** The authentication REST handlers: login checks an email and password against the
    users table and signs a token; signup stores a new user with a hashed password.
    Password hashing, hash comparison and token signing are opaque functions passed in. */
module AuthController {

  import opened Wrappers
  import opened Schema
  import opened Db
  import opened Envelope
  import opened JsString
  import UserService

  /** The claims the login token carries: the user's id, and their email under the name `username`. */
  datatype TokenPayload = TokenPayload(id: Id, username: Option<string>)

  /** `{token, user}`: the whole user row is returned, password hash included. */
  datatype LoginData = LoginData(token: string, user: UserRow)

  const NoAccount := ApiError(404, "Cannot find an account for this email")
  const InvalidCredentials := ApiError(401, "Invalid credentials")
  const UserExists := ApiError(400, "User already exists")

  /** What the hash comparison rejects with when the stored hash is null. */
  const MissingHash := Thrown(Some("Error: data and hash arguments required"), None, "data and hash arguments required")

  const TokenLifetime := "2d"
  const SaltRounds: nat := 10

  /** The signing secret: the configured one when it is set and non-empty, else "123". */
  function Secret(configured: Option<string>): (s: string)
    ensures Truthy(configured) ==> s == configured.value
    ensures !Truthy(configured) ==> s == "123"
  {
    if Truthy(configured) then configured.value else "123"
  }

  /** login: the user found by email, the hash comparison, then the token. Nothing is written. */
  function Login(users: seq<UserRow>, email: string, password: string,
                 compare: (string, string) -> bool, sign: (TokenPayload, string, string) -> string,
                 configured: Option<string>): (c: Completion<LoginData>)
    ensures !HasEmail(users, email) ==> c == NextError(NoAccount)
    ensures HasEmail(users, email) ==>
      var u := UserService.GetOneByEmail(users, email).value;
      && (u.password.None? ==> c == NextError(MissingHash))
      && (u.password.Some? && !compare(password, u.password.value) ==> c == NextError(InvalidCredentials))
      && (u.password.Some? && compare(password, u.password.value) ==>
            c == NextRequest(Some(LoginData(sign(TokenPayload(u.id, u.email), Secret(configured), TokenLifetime), u))))
  {
    match UserService.GetOneByEmail(users, email)
    case None => NextError(NoAccount)
    case Some(u) =>
      if u.password.None? then NextError(MissingHash)
      else if !compare(password, u.password.value) then NextError(InvalidCredentials)
      else
        var token := sign(TokenPayload(u.id, u.email), Secret(configured), TokenLifetime);
        NextRequest(Some(LoginData(token, u)))
  }

  /** With unique emails, login is decided by the one user holding the email: a wrong
      password answers 401 and yields no token, a right one yields that user and a token
      for exactly their id and email. */
  lemma LoginChecksTheOwner(users: seq<UserRow>, u: UserRow, password: string,
                            compare: (string, string) -> bool, sign: (TokenPayload, string, string) -> string,
                            configured: Option<string>)
    requires UsersValid(users)
    requires u in users && u.email.Some? && u.password.Some?
    ensures var c := Login(users, u.email.value, password, compare, sign, configured);
      && (!compare(password, u.password.value) ==> c == NextError(InvalidCredentials) && Finish(c).httpStatus == 401)
      && (compare(password, u.password.value) ==>
            && c.NextRequest? && c.responseData.Some? && c.responseData.value.user == u
            && c.responseData.value.token == sign(TokenPayload(u.id, u.email), Secret(configured), TokenLifetime)
            && Finish(c).httpStatus == 200)
  {
    UserService.GetOneByEmailFindsTheUser(users, u, u.email.value);
  }

  /** signup: refused with 400 when the email is taken; otherwise the user is inserted
      with `hash(password, 10)` in place of the password, and the request is forwarded
      with no data. The insert result is an object, so the "Error creating user" (411)
      branch that tests it for falsity is never taken. */
  method Signup(db: Database, username: Option<string>, email: string, password: string,
                hash: (string, nat) -> string, id: Id, unavailable: bool)
    returns (c: Completion<()>)
    requires db.Valid()
    modifies db
    ensures db.Valid()
    ensures db.chats == old(db.chats) && db.messages == old(db.messages)
    ensures HasEmail(old(db.users), email) ==> c == NextError(UserExists) && db.users == old(db.users)
    ensures !HasEmail(old(db.users), email) ==>
      var stored := UserService.NewUser(username, Some(email), Some(hash(password, SaltRounds)));
      && (c.NextRequest? <==> !unavailable && UserService.InsertError(old(db.users), id, stored).None?)
      && (c.NextRequest? ==> c == NextRequest(None) && db.users == old(db.users) + [UserRow(id, username, Some(email), Some(hash(password, SaltRounds)))])
      && (c.NextError? ==> db.users == old(db.users))
      && (c.NextError? ==> c.thrown == FromService(if unavailable then Db(Unavailable) else DuplicateEntry))
  {
    var existing := UserService.GetOneByEmail(db.users, email);
    if existing.Some? {
      return NextError(UserExists);
    }
    var hashed := hash(password, SaltRounds);
    var r := UserService.CreateNew(db, UserService.NewUser(username, Some(email), Some(hashed)), id, unavailable);
    if r.Failure? {
      return NextError(FromService(r.error));
    }
    c := NextRequest(None);
  }
}

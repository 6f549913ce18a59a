/**
 * The account routes: signup stores a new user and sets the token cookie,
 * login checks the credentials and sets the cookie, logout clears it. Errors a
 * save throws go through the error handler.
 */
module AuthRoutes {
  import opened Wrappers
  import opened Text
  import opened Schema
  import opened Store
  import opened Http
  import opened Crypto
  import opened Errors
  import opened AuthMiddleware

  const FieldsRequiredMessage: string := "All fields are required"
  const UserExistsMessage: string := "User already exists"
  const CredentialsRequiredMessage: string := "Email and password are required"
  const InvalidCredentialsMessage: string := "Invalid credentials"
  const LoggedOutMessage: string := "Logged out successfully"

  /** A user as the account routes return it: every stored field but the password. */
  datatype PublicUser = PublicUser(id: UserId, name: string, email: string, role: string, createdAt: Timestamp)

  /** A reply together with what it does to the `token` cookie. */
  datatype AccountReply = AccountReply(reply: Reply<PublicUser>, cookie: CookieAction)

  function PublicOf(u: User): (p: PublicUser)
    ensures p.id == u.id && p.name == u.name && p.email == u.email && p.role == u.role && p.createdAt == u.createdAt
  {
    PublicUser(u.id, u.name, u.email, u.role, u.createdAt)
  }

  /** The error a failed `save()` throws, as the error handler sees it. */
  function SaveError(r: WriteResult<User>): (e: Err)
    ensures r.ValidationFailed? ==> e.name == "ValidationError" && e.app.None?
    ensures r.DuplicateKey? ==> e.name == "MongoServerError" && e.code == Some(DuplicateKeyCode) && e.app.None?
  {
    if r.ValidationFailed? then Err("ValidationError", "User validation failed", None, None)
    else Err("MongoServerError", "E11000 duplicate key error collection: users index: email_1", Some(DuplicateKeyCode), None)
  }

  /** The cookie the browser holds after a reply. */
  function CookieAfter(action: CookieAction, cookie: Option<string>): (r: Option<string>)
    ensures action.SetToken? ==> r == Some(action.token)
    ensures action.ClearToken? ==> r.None?
    ensures action.KeepCookie? ==> r == cookie
  {
    match action
    case KeepCookie => cookie
    case SetToken(t) => Some(t)
    case ClearToken => None
  }

  // ---------------------------------------------------------------- POST /auth/signup

  /**
   * `POST /auth/signup`. The duplicate check and the save look the normalized email
   * up in the same users, so the save never meets the unique index.
   */
  method Signup(db: Database, c: Suite, name: Option<string>, email: Option<string>, password: Option<string>,
                nodeEnv: Option<string>, now: Timestamp) returns (r: AccountReply)
    requires db.Valid()
    modifies db`users, db`nextId
    ensures db.Valid()
    ensures r.reply.status in {201, 400}
    ensures r.reply.status != 201 ==> r.cookie.KeepCookie? && r.reply.data.None? && db.users == old(db.users)
    ensures !Truthy(email) || !Truthy(password) || !Truthy(name) ==>
      r.reply == Failure(400, FieldsRequiredMessage, "VALIDATION_ERROR")
    ensures Truthy(email) && Truthy(password) && Truthy(name) ==>
      && (FindUserByEmail(old(db.users), NormalizeEmail(email.value)).Some? ==>
            r.reply == Failure(400, UserExistsMessage, "DUPLICATE_EMAIL"))
      && (FindUserByEmail(old(db.users), NormalizeEmail(email.value)).None? ==>
            var u := User(old(db.nextId), Trim(name.value), NormalizeEmail(email.value), c.hash(password.value), RoleUser, now);
            && (UserFieldsValid(u.name, u.email, password.value, RoleUser) ==>
                  && r == AccountReply(Success(201, PublicOf(u)), SetToken(GenerateAuthToken(c, u.id, u.role)))
                  && db.users == old(db.users) + [u])
            && (!UserFieldsValid(u.name, u.email, password.value, RoleUser) ==>
                  r.reply == NoData(ErrorHandler(SaveError(ValidationFailed), nodeEnv))))
  {
    if !Truthy(email) || !Truthy(password) || !Truthy(name) {
      return AccountReply(Failure(400, FieldsRequiredMessage, "VALIDATION_ERROR"), KeepCookie);
    }
    if FindUserByEmail(db.users, NormalizeEmail(email.value)).Some? {
      return AccountReply(Failure(400, UserExistsMessage, "DUPLICATE_EMAIL"), KeepCookie);
    }
    var doc := new UserDoc(name.value, email.value, password.value, Some(RoleUser));
    var saved := db.SaveUser(doc, c.hash, now);
    match saved {
      case Written(u) =>
        r := AccountReply(Success(201, PublicOf(u)), SetToken(GenerateAuthToken(c, u.id, u.role)));
      case _ =>
        r := AccountReply(NoData(ErrorHandler(SaveError(saved), nodeEnv)), KeepCookie);
    }
  }

  // ---------------------------------------------------------------- POST /auth/login

  /** `POST /auth/login`: an unknown email and a wrong password get the same reply. */
  function Login(c: Suite, users: seq<User>, email: Option<string>, password: Option<string>): (r: AccountReply)
    ensures r.reply.status in {200, 400, 401}
    ensures r.reply.status != 200 ==> r.cookie.KeepCookie? && r.reply.data.None?
    ensures !Truthy(email) || !Truthy(password) ==> r.reply == Failure(400, CredentialsRequiredMessage, "VALIDATION_ERROR")
    ensures r.reply.status == 401 <==>
      Truthy(email) && Truthy(password)
      && (FindUserByEmail(users, NormalizeEmail(email.value)).None?
          || !c.compare(password.value, FindUserByEmail(users, NormalizeEmail(email.value)).value.password))
    ensures r.reply.status == 401 ==> r.reply == Failure(401, InvalidCredentialsMessage, "AUTH_ERROR")
    ensures r.reply.status == 200 ==>
      var u := FindUserByEmail(users, NormalizeEmail(email.value)).value;
      r == AccountReply(Success(200, PublicOf(u)), SetToken(GenerateAuthToken(c, u.id, u.role)))
  {
    if !Truthy(email) || !Truthy(password) then
      AccountReply(Failure(400, CredentialsRequiredMessage, "VALIDATION_ERROR"), KeepCookie)
    else match FindUserByEmail(users, NormalizeEmail(email.value))
      case None => AccountReply(Failure(401, InvalidCredentialsMessage, "AUTH_ERROR"), KeepCookie)
      case Some(u) =>
        if !c.compare(password.value, u.password) then AccountReply(Failure(401, InvalidCredentialsMessage, "AUTH_ERROR"), KeepCookie)
        else AccountReply(Success(200, PublicOf(u)), SetToken(GenerateAuthToken(c, u.id, u.role)))
  }

  /** `POST /auth/logout`: always 200, and the cookie is cleared. */
  function Logout(): (r: AccountReply)
    ensures r.reply.status == 200 && r.reply.message == LoggedOutMessage && r.reply.data.None?
    ensures r.cookie == ClearToken
  {
    AccountReply(Reply(200, LoggedOutMessage, "", "", None), ClearToken)
  }

  /** `GET /auth/me` after `authenticate`: the caller's stored record without its password, or 404. */
  function Me(users: seq<User>, caller: ReqUser): (r: Reply<PublicUser>)
    ensures r.status in {200, 404}
    ensures r.status == 404 <==> FindById(users, UserKey, caller.id).None?
    ensures r.status == 404 ==> r == Failure(404, "User not found", "")
    ensures r.status == 200 ==>
      && r.data.Some? && r.data.value.id == caller.id
      && exists u :: u in users && r.data.value == PublicOf(u)
  {
    match FindById(users, UserKey, caller.id)
    case None => Failure(404, "User not found", "")
    case Some(u) => Success(200, PublicOf(u))
  }

  // ---------------------------------------------------------------- round trips

  lemma {:induction false} FindAppended(users: seq<User>, u: User)
    requires FindUserByEmail(users, u.email).None?
    ensures FindUserByEmail(users + [u], u.email) == Some(u)
  {
    if users != [] {
      assert (users + [u])[1..] == users[1..] + [u];
      FindAppended(users[1..], u);
    } else {
      assert [u][0] == u;
    }
  }

  /**
   * A signup followed by a login with the same email (in any case, with any
   * surrounding spaces) and password logs in as the new user.
   */
  lemma SignupThenLogin(c: Suite, users: seq<User>, u: User, email: string, password: string, loginEmail: string)
    requires BcryptSound(c)
    requires u.email == NormalizeEmail(email) && u.password == c.hash(password)
    requires FindUserByEmail(users, u.email).None?
    requires NormalizeEmail(loginEmail) == NormalizeEmail(email) && loginEmail != "" && password != ""
    ensures Login(c, users + [u], Some(loginEmail), Some(password))
      == AccountReply(Success(200, PublicOf(u)), SetToken(GenerateAuthToken(c, u.id, u.role)))
  {
    FindAppended(users, u);
    assert FindUserByEmail(users + [u], NormalizeEmail(loginEmail)) == Some(u);
    assert c.compare(password, u.password);
  }

  /** The cookie login sets identifies the user only to a middleware reading the `id` claim. */
  lemma LoginCookieAuthenticates(c: Suite, users: seq<User>, email: Option<string>, password: Option<string>,
                                 before: Option<string>)
    requires JwtSound(c) && KeysUnique(users, UserKey)
    ensures var r := Login(c, users, email, password);
      r.reply.status == 200 ==>
        var u := FindUserByEmail(users, NormalizeEmail(email.value)).value;
        && AuthenticateById(c, users, None, CookieAfter(r.cookie, before)) == Authenticated(ReqUser(u.id, u.role))
        && Authenticate(c, users, None, CookieAfter(r.cookie, before)).Denied?
  {
    var r := Login(c, users, email, password);
    if r.reply.status == 200 {
      var u := FindUserByEmail(users, NormalizeEmail(email.value)).value;
      IssuedTokenAcceptedById(c, users, u, before);
      IssuedTokenRejected(c, users, u, before);
    }
  }

  /** After logout, a request without an `Authorization` header is refused for want of a token. */
  lemma LogoutThenDenied(c: Suite, users: seq<User>, before: Option<string>, idClaim: string)
    ensures AuthenticateWith(c, users, None, CookieAfter(Logout().cookie, before), idClaim)
      == Denied(Failure(401, NoTokenMessage, ""))
  {
  }
}

/**
 * `authenticate` and `authorizeAdmin`: where the token is read from, the order
 * of the checks, and what the request carries on success. The token's claims
 * are looked up under a field name given as a parameter, because the
 * middleware reads `userId` while the tokens this server issues carry `id`.
 */
module AuthMiddleware {
  import opened Wrappers
  import opened Text
  import opened Schema
  import opened Store
  import opened Http
  import opened Crypto

  const BearerPrefix: string := "Bearer "
  const NoTokenMessage: string := "No token, authorization denied"
  const InvalidTokenMessage: string := "Token is not valid"
  const NotAdminMessage: string := "Not authorized as admin"

  /** `req.user`: the stored user's id and role. */
  datatype ReqUser = ReqUser(id: UserId, role: string)

  datatype AuthOutcome = Authenticated(user: ReqUser) | Denied(reply: Reply<()>)

  /** The token: the second space-separated field of a `Bearer ` header, else the `token` cookie. */
  function ExtractToken(authorization: Option<string>, cookie: Option<string>): (t: Option<string>)
    ensures (authorization.None? || !StartsWith(authorization.value, BearerPrefix)) ==> t == cookie
    ensures authorization.Some? && StartsWith(authorization.value, BearerPrefix) ==>
      t.Some? && ' ' !in t.value && t.value == Split(authorization.value[|BearerPrefix|..], ' ')[0]
  {
    match authorization
    case Some(h) =>
      if StartsWith(h, BearerPrefix) then
        assert h == BearerPrefix + h[|BearerPrefix|..];
        SplitAfterPrefix(BearerPrefix, h[|BearerPrefix|..], ' ');
        Some(Split(h, ' ')[1])
      else cookie
    case None => cookie
  }

  /** `Bearer <token>` yields the token whatever the cookie holds. */
  lemma BearerHeaderWins(token: string, cookie: Option<string>)
    requires ' ' !in token
    ensures ExtractToken(Some(BearerPrefix + token), cookie) == Some(token)
  {
    assert (BearerPrefix + token)[..|BearerPrefix|] == BearerPrefix;
    assert (BearerPrefix + token)[|BearerPrefix|..] == token;
    SplitNoSeparator(token, ' ');
  }

  /**
   * `authenticate`, with the token's user id read from the claim `idClaim`. A token
   * that does not verify, a claim that is missing or not an object id, and an id
   * with no stored user are all answered 401 `Token is not valid`.
   */
  function AuthenticateWith(c: Suite, users: seq<User>, authorization: Option<string>, cookie: Option<string>,
                            idClaim: string): (r: AuthOutcome)
    ensures r.Denied? ==> r.reply.status == 401 && r.reply.data.None?
    ensures !Truthy(ExtractToken(authorization, cookie)) ==> r == Denied(Failure(401, NoTokenMessage, ""))
    ensures r.Authenticated? ==> exists u :: u in users && r.user == ReqUser(u.id, u.role)
    ensures Truthy(ExtractToken(authorization, cookie)) && r.Denied? ==> r.reply == Failure(401, InvalidTokenMessage, "")
    ensures r.Authenticated? <==>
      var t := ExtractToken(authorization, cookie);
      && Truthy(t) && c.verify(t.value).Some? && idClaim in c.verify(t.value).value
      && c.verify(t.value).value[idClaim].IdClaim?
      && FindById(users, UserKey, c.verify(t.value).value[idClaim].id).Some?
    ensures r.Authenticated? ==>
      var t := ExtractToken(authorization, cookie);
      && r.user.id == c.verify(t.value).value[idClaim].id
      && r.user.role == FindById(users, UserKey, r.user.id).value.role
  {
    var token := ExtractToken(authorization, cookie);
    if !Truthy(token) then Denied(Failure(401, NoTokenMessage, ""))
    else match c.verify(token.value)
      case None => Denied(Failure(401, InvalidTokenMessage, ""))
      case Some(claims) =>
        if idClaim !in claims then Denied(Failure(401, InvalidTokenMessage, ""))
        else match claims[idClaim]
          case TextClaim(_) => Denied(Failure(401, InvalidTokenMessage, ""))
          case IdClaim(id) =>
            match FindById(users, UserKey, id)
            case None => Denied(Failure(401, InvalidTokenMessage, ""))
            case Some(u) => Authenticated(ReqUser(u.id, u.role))
  }

  /** `authenticate` as written: it looks for the claim `userId`. */
  function Authenticate(c: Suite, users: seq<User>, authorization: Option<string>, cookie: Option<string>): AuthOutcome
  {
    AuthenticateWith(c, users, authorization, cookie, "userId")
  }

  /** `authenticate` reading the claim `generateAuthToken` signs, `id`. */
  function AuthenticateById(c: Suite, users: seq<User>, authorization: Option<string>, cookie: Option<string>): AuthOutcome
  {
    AuthenticateWith(c, users, authorization, cookie, "id")
  }

  /** A `Bearer ` header with nothing after it is refused before verification, even beside a valid cookie. */
  lemma EmptyBearerDenied(c: Suite, users: seq<User>, cookie: Option<string>, idClaim: string)
    ensures AuthenticateWith(c, users, Some(BearerPrefix), cookie, idClaim) == Denied(Failure(401, NoTokenMessage, ""))
  {
    assert BearerPrefix == BearerPrefix + "";
    BearerHeaderWins("", cookie);
  }

  /** As written, every token the server issues is refused, from the cookie and from the header alike. */
  lemma IssuedTokenRejected(c: Suite, users: seq<User>, u: User, cookie: Option<string>)
    requires JwtSound(c)
    ensures var token := GenerateAuthToken(c, u.id, u.role);
      && Authenticate(c, users, None, Some(token)) == Denied(Failure(401, InvalidTokenMessage, ""))
      && Authenticate(c, users, Some(BearerPrefix + token), cookie) == Denied(Failure(401, InvalidTokenMessage, ""))
  {
    var token := GenerateAuthToken(c, u.id, u.role);
    BearerHeaderWins(token, cookie);
  }

  /** Reading the `id` claim, a token issued for a stored user authenticates as that user, with the stored role. */
  lemma IssuedTokenAcceptedById(c: Suite, users: seq<User>, u: User, cookie: Option<string>)
    requires JwtSound(c) && u in users && KeysUnique(users, UserKey)
    ensures var token := GenerateAuthToken(c, u.id, u.role);
      && AuthenticateById(c, users, None, Some(token)) == Authenticated(ReqUser(u.id, u.role))
      && AuthenticateById(c, users, Some(BearerPrefix + token), cookie) == Authenticated(ReqUser(u.id, u.role))
  {
    var token := GenerateAuthToken(c, u.id, u.role);
    BearerHeaderWins(token, cookie);
    var k :| 0 <= k < |users| && users[k] == u;
    assert FindById(users, UserKey, u.id) == Some(u) by {
      var f := IndexOfKey(users, UserKey, u.id);
      assert f.Some? && f.value <= k;
      assert UserKey(users[f.value]) == UserKey(users[k]);
    }
  }

  /** The role on the request is the stored one, whatever role the token claims. */
  lemma RoleFromStore(c: Suite, users: seq<User>, authorization: Option<string>, cookie: Option<string>, idClaim: string)
    requires KeysUnique(users, UserKey)
    ensures var r := AuthenticateWith(c, users, authorization, cookie, idClaim);
      r.Authenticated? ==> FindById(users, UserKey, r.user.id).Some? && FindById(users, UserKey, r.user.id).value.role == r.user.role
  {
  }

  /** `authorizeAdmin`: `None` passes on; anyone but an admin gets 403. */
  function AuthorizeAdmin(user: Option<ReqUser>): (r: Option<Reply<()>>)
    ensures r.None? <==> user.Some? && user.value.role == RoleAdmin
    ensures r.Some? ==> r.value == Failure(403, NotAdminMessage, "")
  {
    if user.Some? && user.value.role == RoleAdmin then None else Some(Failure(403, NotAdminMessage, ""))
  }
}

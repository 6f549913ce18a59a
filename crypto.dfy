/**
 * bcrypt and jsonwebtoken, which the handlers call but which are not part of
 * this model. They are treated as uninterpreted functions: a suite of four
 * functions of which only the laws stated here are assumed, and only where a
 * lemma names them as a hypothesis.
 */
module Crypto {
  import opened Wrappers
  import opened Schema

  /** A value in a token payload: an object id, or any other JSON string. */
  datatype Claim = IdClaim(id: UserId) | TextClaim(text: string)

  type Claims = map<string, Claim>

  datatype Suite = Suite(
    /** `bcrypt.hash(password, salt)`, with the salt drawn inside. */
    hash: string -> string,
    /** `bcrypt.compare(candidate, hashed)`. */
    compare: (string, string) -> bool,
    /** `jwt.sign(payload, JWT_SECRET, {expiresIn})`. */
    sign: Claims -> string,
    /** `jwt.verify(token, JWT_SECRET)`; `None` when it throws (bad signature, expired, malformed). */
    verify: string -> Option<Claims>)

  /**
   * A token signed with the secret verifies to its own payload; it is never the
   * empty string and, being base64url parts joined by dots, holds no space.
   */
  ghost predicate JwtSound(c: Suite)
  {
    forall p :: c.verify(c.sign(p)) == Some(p) && c.sign(p) != "" && ' ' !in c.sign(p)
  }

  /** A password matches its own hash. */
  ghost predicate BcryptSound(c: Suite)
  {
    forall p :: c.compare(p, c.hash(p))
  }

  /** The payload `generateAuthToken` signs: the user id under `id`, and the role under `role` when it is non-empty. */
  function TokenPayload(userId: UserId, role: string): (p: Claims)
    ensures "id" in p && p["id"] == IdClaim(userId)
    ensures "userId" !in p
    ensures ("role" in p) <==> role != ""
    ensures "role" in p ==> p["role"] == TextClaim(role)
  {
    map["id" := IdClaim(userId)] + (if role != "" then map["role" := TextClaim(role)] else map[])
  }

  function GenerateAuthToken(c: Suite, userId: UserId, role: string): (token: string)
    ensures JwtSound(c) ==> c.verify(token) == Some(TokenPayload(userId, role)) && token != "" && ' ' !in token
  {
    c.sign(TokenPayload(userId, role))
  }
}

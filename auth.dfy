/**
 * Bearer-token authentication: the claims an access token carries and the
 * decision ladder that turns a decoded token into the live user record.
 * Signing and verifying the token are the JWT library's business; the model
 * represents a token by the claims it carries and a decoding by `Decoded`.
 */
module Auth {
  import opened Http
  import opened Models
  import opened Db

  const AccessTokenExpireMinutes := 60 * 24

  /** The default lifetime of an access token, in seconds (1440 minutes). */
  const DefaultExpiresDelta := AccessTokenExpireMinutes * 60

  /** A JSON value inside a token's claims. */
  datatype ClaimValue = Text(text: string) | Number(number: int) | Null

  type Claims = map<string, ClaimValue>

  /**
   * What the JWT library makes of a bearer token: its claims, or one of the
   * two exceptions it raises (an expired signature, any other invalid token).
   */
  datatype Decoded = Payload(claims: Claims) | ExpiredSignature | InvalidToken

  const TokenExpired := HttpError(401, "Token has expired")
  const TokenInvalid := HttpError(401, "Invalid token")
  const CredentialsInvalid := HttpError(401, "Invalid authentication credentials")
  const UserNotFound := HttpError(401, "User not found")

  /**
   * The claims an access token is signed over: a copy of `data` with "exp"
   * set to `now + expiresDelta`. The caller's claims are a value and stay as
   * they were.
   */
  function CreateAccessToken(data: Claims, now: int, expiresDelta: int := DefaultExpiresDelta): (payload: Claims)
    ensures payload.Keys == data.Keys + {"exp"}
    ensures payload["exp"] == Number(now + expiresDelta)
    ensures forall k :: k in data && k != "exp" ==> payload[k] == data[k]
  {
    data["exp" := Number(now + expiresDelta)]
  }

  /**
   * The authenticated user of a request: decoding failures and a missing
   * subject are rejected, then the subject email is looked up in the live
   * user table. Every failure is a 401. The JWT library rejects a subject
   * that is present but not a string (null or a number) while decoding, as
   * an invalid token.
   */
  function GetCurrentUser(token: Decoded, users: map<int, User>): (r: Result<User>)
    ensures token.ExpiredSignature? ==> r == Err(TokenExpired)
    ensures token.InvalidToken? ==> r == Err(TokenInvalid)
    ensures token.Payload? && "sub" !in token.claims ==> r == Err(CredentialsInvalid)
    ensures token.Payload? && "sub" in token.claims && !token.claims["sub"].Text? ==>
      r == Err(TokenInvalid)
    ensures token.Payload? && "sub" in token.claims && token.claims["sub"].Text? ==>
      var email := token.claims["sub"].text;
      && (r.Ok? <==> exists k :: k in users && users[k].email == email)
      && (r.Err? ==> r.error == UserNotFound)
      && (r.Ok? ==> r.value in users.Values && r.value.email == email)
    ensures r.Err? ==> r.error.status == 401
  {
    match token
    case ExpiredSignature => Err(TokenExpired)
    case InvalidToken => Err(TokenInvalid)
    case Payload(claims) =>
      if "sub" !in claims then Err(CredentialsInvalid)
      else
        match claims["sub"]
        case Null => Err(TokenInvalid)
        case Number(_) => Err(TokenInvalid)
        case Text(email) =>
          match FindUserByEmail(users, email)
          case None => Err(UserNotFound)
          case Some(k) => Ok(users[k])
  }

  /**
   * Only the "sub" claim is consulted: two payloads that agree on it (whatever
   * their "role" or "user_id" claims say) give the same user, whose role is
   * therefore the stored one.
   */
  lemma OnlySubjectConsulted(c1: Claims, c2: Claims, users: map<int, User>)
    requires "sub" in c1 <==> "sub" in c2
    requires "sub" in c1 ==> c1["sub"] == c2["sub"]
    ensures GetCurrentUser(Payload(c1), users) == GetCurrentUser(Payload(c2), users)
  {
  }
}

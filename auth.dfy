/**
 * The request gate of the Express backend: `authMiddleware`, which takes the
 * token from the `Authorization` header and verifies it, and
 * `requireRole(...roles)`, which checks the verified role.
 */
module Auth {
  import opened Wrappers
  import opened Strings
  import opened Collection
  import Jwt

  /** The key used when `JWT_SECRET` is unset or empty. */
  const DEFAULT_SECRET := "default-secret-key"

  /** `process.env.JWT_SECRET || 'default-secret-key'`. */
  function SigningSecret(env: Option<string>): (secret: string)
    ensures secret != ""
    ensures env.Some? && env.value != "" ==> secret == env.value
    ensures env.None? || env.value == "" ==> secret == DEFAULT_SECRET
  {
    if env.Some? && env.value != "" then env.value else DEFAULT_SECRET
  }

  /** The payload signed at login and attached to the request as `req.user`. */
  datatype Claims = Claims(id: Id, username: string, role: string)

  /** Why a request was turned away. */
  datatype Denial =
    | MissingToken   // no header, or nothing after its first space
    | InvalidToken   // the token does not verify (bad signature, malformed, expired)
    | Forbidden      // the verified role is not among the route's roles

  datatype Gate = Reject(status: nat, reason: Denial) | Admit(claims: Claims)

  /** `req.headers.authorization?.split(' ')[1]`, where an undefined or empty
      result counts as no token. */
  function ExtractToken(authorization: Option<string>): (token: Option<string>)
    ensures token.Some? ==> token.value != "" && ' ' !in token.value
    ensures token.Some? ==> authorization.Some? && ' ' in authorization.value
  {
    match authorization
    case None => None
    case Some(header) =>
      var parts := Split(header, ' ');
      if |parts| >= 2 && parts[1] != "" then
        assert ' ' in header by {
          SplitWithoutSpaceIsOnePiece(header);
        }
        Some(parts[1])
      else None
  }

  /** A header with no space has no second piece. */
  lemma SplitWithoutSpaceIsOnePiece(header: string)
    ensures ' ' !in header ==> |Split(header, ' ')| == 1
  {
    if ' ' !in header {
      SplitWithoutSeparator(header, ' ');
    }
  }

  /** A header without a space carries no token. */
  lemma {:induction false} NoSpaceNoToken(header: string)
    requires ' ' !in header
    ensures ExtractToken(Some(header)) == None
  {
    SplitWithoutSeparator(header, ' ');
  }

  /** The token is the text after the first space, up to the next space; the
      word before the space is never looked at. */
  lemma {:induction false} TokenFollowsFirstSpace(scheme: string, rest: string)
    requires ' ' !in scheme
    ensures ExtractToken(Some(scheme + " " + rest))
         == var piece := Split(rest, ' ')[0]; if piece == "" then None else Some(piece)
  {
    SplitAppend(scheme, rest, ' ');
    SplitWithoutSeparator(scheme, ' ');
    assert scheme + " " + rest == scheme + [' '] + rest;
  }

  /** `<any word> <token>` yields the token, whatever the word is. */
  lemma {:induction false} AnySchemeYieldsToken(scheme: string, token: string)
    requires ' ' !in scheme && ' ' !in token && token != ""
    ensures ExtractToken(Some(scheme + " " + token)) == Some(token)
  {
    TokenFollowsFirstSpace(scheme, token);
    SplitWithoutSeparator(token, ' ');
  }

  /** `authMiddleware`: 401 without a token or with one that does not verify,
      otherwise the verified claims. */
  function Authenticate(authorization: Option<string>, decode: Jwt.Decoder<Claims>, secret: string, now: int): (g: Gate)
    ensures g.Reject? ==> g.status == 401 && g.reason != Forbidden
    ensures ExtractToken(authorization).None? <==> g == Reject(401, MissingToken)
    ensures g.Admit? <==> ExtractToken(authorization).Some?
                          && Jwt.Verify(decode, secret, ExtractToken(authorization).value, now).Some?
    ensures g.Admit? ==> Jwt.Verify(decode, secret, ExtractToken(authorization).value, now) == Some(g.claims)
  {
    match ExtractToken(authorization)
    case None => Reject(401, MissingToken)
    case Some(token) =>
      match Jwt.Verify(decode, secret, token, now)
      case None => Reject(401, InvalidToken)
      case Some(claims) => Admit(claims)
  }

  /** `requireRole(...roles)`: 403 unless the verified role is one of `roles`. */
  function RequireRole(roles: seq<string>, claims: Claims): (g: Gate)
    ensures g.Admit? <==> claims.role in roles
    ensures g.Admit? ==> g.claims == claims
    ensures g.Reject? ==> g == Reject(403, Forbidden)
  {
    if claims.role in roles then Admit(claims) else Reject(403, Forbidden)
  }

  /** The middleware chain of a route: `authMiddleware`, then `requireRole`
      when the route has one (`roles` is `None` for routes open to every
      authenticated user). */
  function Guard(authorization: Option<string>, decode: Jwt.Decoder<Claims>, secret: string, now: int,
                 roles: Option<seq<string>>): (g: Gate)
    ensures Authenticate(authorization, decode, secret, now).Reject? ==> g == Authenticate(authorization, decode, secret, now)
    ensures g.Admit? <==> Authenticate(authorization, decode, secret, now).Admit?
                          && (roles.None? || Authenticate(authorization, decode, secret, now).claims.role in roles.value)
    ensures g.Admit? ==> g == Authenticate(authorization, decode, secret, now)
    ensures g.Reject? && g.status == 403 ==> roles.Some? && Authenticate(authorization, decode, secret, now).Admit?
    ensures Authenticate(authorization, decode, secret, now).Admit? && roles.Some?
            && Authenticate(authorization, decode, secret, now).claims.role !in roles.value ==>
      g == Reject(403, Forbidden)
  {
    var auth := Authenticate(authorization, decode, secret, now);
    if auth.Reject? || roles.None? then auth else RequireRole(roles.value, auth.claims)
  }

  /** A token the server signed at `issuedAt`, sent as `<word> <token>`, is
      admitted with the signed claims for seven days and refused with 401 after. */
  lemma {:induction false} IssuedTokenAdmitted(encode: Jwt.Encoder<Claims>, decode: Jwt.Decoder<Claims>, secret: string,
                                               scheme: string, claims: Claims, issuedAt: int, now: int)
    requires Jwt.Sound(encode, decode)
    requires ' ' !in scheme
    ensures Authenticate(Some(scheme + " " + encode(Jwt.Sign(claims, issuedAt), secret)), decode, secret, now)
         == if now < issuedAt + Jwt.SEVEN_DAYS then Admit(claims) else Reject(401, InvalidToken)
  {
    var text := encode(Jwt.Sign(claims, issuedAt), secret);
    assert text != "" && ' ' !in text;
    AnySchemeYieldsToken(scheme, text);
    Jwt.IssuedTokenVerifies(encode, decode, secret, claims, issuedAt, now);
  }

  /** Behind `requireRole(...roles)`, a server-issued token within its seven
      days is let through exactly when its role is listed, and gets 403
      otherwise; an expired one gets 401 before the role is looked at. */
  lemma {:induction false} IssuedTokenRoleCheck(encode: Jwt.Encoder<Claims>, decode: Jwt.Decoder<Claims>, secret: string,
                                                scheme: string, claims: Claims, issuedAt: int, now: int, roles: seq<string>)
    requires Jwt.Sound(encode, decode)
    requires ' ' !in scheme
    ensures Guard(Some(scheme + " " + encode(Jwt.Sign(claims, issuedAt), secret)), decode, secret, now, Some(roles))
         == if issuedAt + Jwt.SEVEN_DAYS <= now then Reject(401, InvalidToken)
            else if claims.role in roles then Admit(claims)
            else Reject(403, Forbidden)
  {
    IssuedTokenAdmitted(encode, decode, secret, scheme, claims, issuedAt, now);
  }
}

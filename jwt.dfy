/**
 * The token issuer and verifier (the `jsonwebtoken` library). Base64url
 * encoding and the HMAC signature are not modelled: `encode` and `decode`
 * stand for them and are parameters; the expiry check is modelled.
 */
module Jwt {
  import opened Wrappers

  /** `expiresIn: '7d'`, in seconds (token times are whole seconds). */
  const SEVEN_DAYS: int := 7 * 24 * 60 * 60

  /** A signed payload with its `iat` and `exp` claims. */
  datatype Token<C> = Token(payload: C, issuedAt: int, expiresAt: int)

  /** Signs text into a token with a secret: the library's encoder. */
  type Encoder<!C> = (Token<C>, string) -> string

  /** Parses a token text and checks its signature with a secret. */
  type Decoder<!C> = (string, string) -> Option<Token<C>>

  /** The payload `jwt.sign(payload, secret, { expiresIn: '7d' })` encodes at time `now`. */
  function Sign<C>(payload: C, now: int): (t: Token<C>)
    ensures t.payload == payload && t.issuedAt == now
    ensures t.expiresAt - t.issuedAt == SEVEN_DAYS
  {
    Token(payload, now, now + SEVEN_DAYS)
  }

  /** `jwt.verify(text, secret)` at time `now`: the payload of a well-signed
      token that has not expired, otherwise nothing (the library throws). */
  function Verify<C>(decode: Decoder<C>, secret: string, text: string, now: int): (r: Option<C>)
    ensures r.Some? ==> decode(text, secret).Some? && r.value == decode(text, secret).value.payload
    ensures r.Some? <==> decode(text, secret).Some? && now < decode(text, secret).value.expiresAt
  {
    match decode(text, secret)
    case None => None
    case Some(t) => if now < t.expiresAt then Some(t.payload) else None
  }

  /** What the library guarantees of its own tokens: decoding with the same
      secret gives back what was signed, and the text is a non-empty
      base64url string (so it has no space in it). */
  ghost predicate Sound<C(!new)>(encode: Encoder<C>, decode: Decoder<C>)
  {
    forall t: Token<C>, secret: string ::
      decode(encode(t, secret), secret) == Some(t) && encode(t, secret) != "" && ' ' !in encode(t, secret)
  }

  /** A token signed at `issuedAt` verifies, with its payload, exactly during the following seven days. */
  lemma IssuedTokenVerifies<C(!new)>(encode: Encoder<C>, decode: Decoder<C>, secret: string, payload: C, issuedAt: int, now: int)
    requires Sound(encode, decode)
    ensures Verify(decode, secret, encode(Sign(payload, issuedAt), secret), now)
         == if now < issuedAt + SEVEN_DAYS then Some(payload) else None
  {
    var t := Sign(payload, issuedAt);
    assert decode(encode(t, secret), secret) == Some(t);
  }
}

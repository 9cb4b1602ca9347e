/** Password hashing (bcrypt) and session tokens (JSON Web Tokens), kept abstract.
    The libraries are not modelled: handlers receive their functions as parameters,
    and the properties the model relies on are stated as predicates over them. */
module Crypto {
  import opened Http
  import opened Schema

  /** A signed token, as carried in the `token` cookie */
  type Token = string

  /** Why `jwt.verify` throws: a bad signature or payload, or a passed expiry */
  datatype TokenError = TokenInvalid | TokenExpired

  /** `bcrypt.hash(password, rounds)` */
  type Hasher = (string, nat) -> string

  /** `bcrypt.compare(password, hash)` */
  type Comparer = (string, string) -> bool

  /** `jwt.sign({ id }, secret, { expiresIn })`: user id, issue time and lifetime in seconds */
  type Signer = (UserId, nat, nat) -> Token

  /** `jwt.verify(token, secret)` at a time in seconds, yielding the payload's id */
  type Verifier = (Token, nat) -> Result<UserId, TokenError>

  /** The bcrypt cost factor signup uses */
  const SaltRounds: nat := 10

  /** `expiresIn: "10d"`: the lifetime of a signed token, in seconds */
  const TokenLifetimeSeconds: nat := 10 * 24 * 60 * 60

  /** `maxAge` of the `token` cookie, in milliseconds: 24 hours. It is deliberately a
      separate constant: the token outlives the cookie that delivers it. */
  const CookieMaxAgeMillis: nat := 24 * 60 * 60 * 1000

  /** A password always matches its own hash */
  ghost predicate HashSound(hash: Hasher, compare: Comparer) {
    forall p: string, rounds: nat :: compare(p, hash(p, rounds))
  }

  /** A signed token is a non-empty string that verifies to its user id until it
      expires, and fails with `TokenExpired` from then on */
  ghost predicate JwtSound(sign: Signer, verify: Verifier) {
    && (forall id: UserId, iat: nat, life: nat :: sign(id, iat, life) != "")
    && (forall id: UserId, iat: nat, life: nat, now: nat :: iat <= now < iat + life ==>
          verify(sign(id, iat, life), now) == Success(id))
    && (forall id: UserId, iat: nat, life: nat, now: nat :: iat + life <= now ==>
          verify(sign(id, iat, life), now) == Failure(TokenExpired))
  }
}

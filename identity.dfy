/**
 * Identities, roles and the two cryptographic primitives the auth service uses.
 * bcrypt and JWT signing are foreign code; they are modelled symbolically:
 * a digest or a token is a constructor applied to what was hashed or signed,
 * so nothing can produce one except Hash and the token issuer, and only
 * Compare looks inside a digest.
 */
module Identity {

  /** Users are keyed by a store-generated id (a uuid in the database). */
  type UserId = nat

  /** The UserRole enum: USER is the default, ADMIN sees and edits drafts. */
  datatype Role = USER | ADMIN

  /** A salted one-way password digest, as bcrypt.hash(password, 10) produces. */
  datatype Digest = Bcrypt(secret: string)

  function Hash(password: string): (d: Digest)
    ensures Compare(password, d)
  {
    Bcrypt(password)
  }

  /** bcrypt.compare(plain, digest), idealised: it reads the whole of `plain`. */
  predicate Compare(plain: string, d: Digest): (ok: bool)
    ensures ok <==> d == Bcrypt(plain)
  {
    d.secret == plain
  }

  /** A digest accepts exactly the password it was made from. */
  lemma CompareAcceptsOnlyItsPassword(plain: string, password: string)
    ensures Compare(plain, Hash(password)) <==> plain == password
  {
  }

  /** The claims both tokens of a pair carry: {sub, email, role}. */
  datatype Claims = Claims(sub: UserId, email: string, role: Role)

  /** Which secret and expiry signed a token: JWT_ACCESS_* or JWT_REFRESH_*. */
  datatype TokenKind = AccessToken | RefreshToken

  /** A signed JWT: its payload, the secret that signed it and its issued-at second. */
  datatype Jwt = Jwt(claims: Claims, kind: TokenKind, issuedAt: nat)
}

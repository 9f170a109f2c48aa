/**
 The credential hasher (bcrypt) and the token issuer (JWT), kept abstract.
 A `Provider` bundles the four operations as function values; the laws the
 rest of the model relies on are stated as predicates over a provider and
 appear only as hypotheses, never as axioms.
 */
module Crypto {
  import opened Common

  /** A bcrypt digest string (salt embedded). */
  type Digest = string

  /** The two signing configurations: each has its own secret and expiry. */
  datatype TokenClass = AccessToken | RefreshToken

  /** The claims every issued token carries. */
  datatype Claims = Claims(userId: string, email: string)

  datatype Provider = Provider(
    /** `bcrypt.hashSync(data, 10)`; the random salt is an explicit argument. */
    hash: (string, nat) -> Digest,
    /** `bcrypt.compare(data, digest)`. */
    compare: (string, Digest) -> bool,
    /** `jwtService.signAsync(claims, {secret, expiresIn})` for a class, at an issue time. */
    sign: (Claims, TokenClass, nat) -> string,
    /** Signature check of a token under the secret of a class, yielding its claims. */
    decode: (string, TokenClass) -> Option<Claims>)

  /** A digest accepts the data it was computed from, whatever the salt. */
  ghost predicate HashLaw(p: Provider)
  {
    forall x, salt :: p.compare(x, p.hash(x, salt))
  }

  /** A token decodes, under its own class, to the claims it was signed with. */
  ghost predicate SignLaw(p: Provider)
  {
    forall cl, k, t :: p.decode(p.sign(cl, k, t), k) == Some(cl)
  }

  ghost predicate Lawful(p: Provider)
  {
    HashLaw(p) && SignLaw(p)
  }

  /** A digest accepts nothing but the data it was computed from. */
  ghost predicate WholeInputHash(p: Provider)
  {
    forall x, y, salt :: p.compare(x, p.hash(y, salt)) ==> x == y
  }

  /** The input bcrypt actually reads: its first 72 bytes (one byte per character for ASCII tokens). */
  function Prefix72(x: string): string
  {
    if |x| <= 72 then x else x[..72]
  }

  /** `compare` reads only the first 72 characters of the data, as bcrypt does. */
  ghost predicate Prefix72Hash(p: Provider)
  {
    forall x, y, d :: Prefix72(x) == Prefix72(y) ==> p.compare(x, d) == p.compare(y, d)
  }
}

/** JSON web tokens as the backend uses them. Signing and verification are
    parameters of the operations that use them (the cryptography is not modelled);
    this module fixes the claim sets, the lifetimes and the secrets. */
module Tokens {
  import opened Wrappers
  import opened Text
  import opened Schema

  /** A claim value inside a token payload. */
  datatype ClaimValue = Num(n: int) | Str(s: string)

  /** A decoded token payload, keyed by claim name. */
  type Claims = map<string, ClaimValue>

  /** One call of `jwt.sign(payload, secret, { expiresIn })`. */
  datatype SignRequest = SignRequest(claims: Claims, secret: string, expiresInSeconds: nat)

  /** `expiresIn: "7d"`. */
  const SessionLifetimeSeconds: nat := 7 * 24 * 60 * 60

  /** The fallback secret of the request guard. */
  const FallbackSecret := "secret123"

  /** `process.env.JWT_SECRET || "secret123"`: the secret the request guard verifies with. */
  function GuardSecret(env: Option<string>): (secret: string)
    ensures Truthy(env) ==> secret == env.value
    ensures !Truthy(env) ==> secret == "secret123"
    ensures secret != ""
  {
    if Truthy(env) then env.value else FallbackSecret
  }

  /** The payload `loginUser` signs: the user's primary key under `id`, the role and the email. */
  function SessionClaims(u: User): (c: Claims)
    ensures c.Keys == {"id", "role", "email"}
    ensures c["id"] == Num(u.userId)
    ensures c["role"].Str? && ParseRole(c["role"].s) == Some(u.role)
    ensures c["email"] == Str(u.email)
  {
    map["id" := Num(u.userId), "role" := Str(RoleName(u.role)), "email" := Str(u.email)]
  }

  /** What verification hands back for a token signed with `claims` at `iat` that
      expires at `exp`: the signed claims plus the two registered time claims. */
  function SignedPayload(claims: Claims, iat: int, exp: int): (p: Claims)
    ensures p.Keys == claims.Keys + {"iat", "exp"}
    ensures forall k :: k in claims && k != "iat" && k != "exp" ==> p[k] == claims[k]
  {
    claims["iat" := Num(iat)]["exp" := Num(exp)]
  }

  /** `jwt.verify(token, secret)`, with `verify` standing for signature and expiry
      checking. The library refuses an empty token before looking at it
      ("jwt must be provided"), whatever `verify` would say. */
  function Verify(verify: (string, string) -> Option<Claims>, token: string, secret: string): (r: Option<Claims>)
    ensures token == "" ==> r == None
    ensures token != "" ==> r == verify(token, secret)
  {
    if token == "" then None else verify(token, secret)
  }
}

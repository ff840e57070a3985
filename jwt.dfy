/** JSON Web Tokens (RFC 7519) as @nestjs/jwt provides them: `signAsync(payload,
    {secret, expiresIn})` and `verifyAsync(token, {secret})`. The library, its
    algorithms and its clock are not modelled; the signer is a pair of functions
    handed to the service, and the wall-clock instant is an explicit argument. */
module Jwt {
  import opened Wrappers

  /** Wall-clock time in seconds, as the `iat` and `exp` claims count it. */
  type Instant = nat

  /** `sign(payload, secret, expiresIn, now)` is the token signed at `now`;
      `verify(token, secret, now)` is the decoded payload, or None when the signature,
      the structure or the expiry check fails at `now`. */
  datatype TokenSigner<!P> = TokenSigner(
    sign: (P, string, string, Instant) -> string,
    verify: (string, string, Instant) -> Option<P>)

  /** A token verified under the secret it was signed with, at the instant it was
      signed, yields the payload it was signed with. */
  ghost predicate RoundTrips<P(!new)>(s: TokenSigner<P>)
  {
    forall p, secret, ttl, t :: s.verify(s.sign(p, secret, ttl, t), secret, t) == Some(p)
  }

  /** A token verified under the secret it was signed with yields, at any instant,
      either nothing (it has expired) or the payload it was signed with, never another. */
  ghost predicate DecodesOnlyItsPayload<P(!new)>(s: TokenSigner<P>)
  {
    forall p, secret, ttl, t, later ::
      s.verify(s.sign(p, secret, ttl, t), secret, later).None? ||
      s.verify(s.sign(p, secret, ttl, t), secret, later) == Some(p)
  }
}

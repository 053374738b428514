/** The request guard: the `Authorization` header yields a token, with or without a "Bearer "
    prefix; a verified token sets the caller's identity. Token verification is a collaborator. */
module Authenticate {
  import opened Wrappers
  import Auth
  import UserModel

  const BearerPrefix: string := "Bearer "

  /** `token.startsWith("Bearer ") ? token.slice(7) : token` */
  function StripBearer(header: string): (token: string)
    ensures |header| >= 7 && header[..7] == BearerPrefix ==> token == header[7..]
    ensures !(|header| >= 7 && header[..7] == BearerPrefix) ==> token == header
  {
    if |header| >= |BearerPrefix| && header[..|BearerPrefix|] == BearerPrefix then header[|BearerPrefix|..] else header
  }

  /** The prefix is removed exactly once: a prefixed token comes back as it was, even when it
      itself starts with the prefix. */
  lemma StripBearerOnce(token: string)
    ensures StripBearer(BearerPrefix + token) == token
  {
    assert (BearerPrefix + token)[..7] == BearerPrefix;
    assert (BearerPrefix + token)[7..] == token;
  }

  /** A header without the prefix is used as the token unchanged. */
  lemma NoPrefixUnchanged(header: string)
    requires !(|header| >= 7 && header[..7] == BearerPrefix)
    ensures StripBearer(header) == header
  {
  }

  /** The request identity: `req.userId`, `req.user._id` and `req.role`. */
  datatype Identity = Identity(userId: UserModel.Id, userObjectId: UserModel.Id, role: UserModel.Role)

  /** Either the handler runs with an identity, or the request is refused with a status and message. */
  datatype Outcome = Next(identity: Identity) | Reject(status: int, error: string)

  const TokenNotProvided: string := "Token not provided"
  const InvalidToken: string := "Invalid token"

  /** `authenticateUser`: a missing or empty header is refused with 401 before anything else; the
      token is verified (`verify` returns the payload, or nothing when the signature or expiry
      fails), and a failure is a 401; otherwise the identity comes from the payload. */
  function Guard(header: Option<string>, verify: string -> Option<Auth.Claims>): (r: Outcome)
    ensures header.None? || header.value == "" ==> r == Reject(401, TokenNotProvided)
    ensures header.Some? && header.value != "" && verify(StripBearer(header.value)).None? ==> r == Reject(401, InvalidToken)
    ensures r.Next? <==> header.Some? && header.value != "" && verify(StripBearer(header.value)).Some?
    ensures r.Next? ==> && r.identity.userId == verify(StripBearer(header.value)).value.userId
                        && r.identity.role == verify(StripBearer(header.value)).value.role
                        && r.identity.userObjectId == r.identity.userId
  {
    if header.None? || header.value == "" then Reject(401, TokenNotProvided)
    else
      match verify(StripBearer(header.value))
      case None => Reject(401, InvalidToken)
      case Some(claims) => Next(Identity(claims.userId, claims.userId, claims.role))
  }

  /** A session token issued at login or registration, sent back with or without the prefix, is
      admitted with the identity it was issued for, when the verifier accepts what the signer made. */
  lemma IssuedTokenAdmits(sign: Auth.Claims -> string, verify: string -> Option<Auth.Claims>, claims: Auth.Claims, prefixed: bool)
    requires sign(claims) != ""
    requires verify(sign(claims)) == Some(claims)
    requires !(|sign(claims)| >= 7 && sign(claims)[..7] == BearerPrefix)
    ensures var header := if prefixed then BearerPrefix + sign(claims) else sign(claims);
            Guard(Some(header), verify) == Next(Identity(claims.userId, claims.userId, claims.role))
  {
    StripBearerOnce(sign(claims));
  }
}

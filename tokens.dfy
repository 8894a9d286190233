/**
 * The token service of config.php: `generateToken` and `verifyToken`.
 * The token is the encoded claim set and nothing else; there is no signature or
 * MAC, so whoever can produce an encoding produces a token the service accepts.
 * The clock is the parameter `now` (PHP's `time()`).
 */
module Tokens {
  import opened Wrappers
  import opened ClaimsCodec

  /** 60 * 60 * 24 seconds: the fixed validity window of an issued token. */
  const TokenLifetime: int := 60 * 60 * 24

  /** `generateToken(user_id, email)` at time `now`. */
  function GenerateToken(userId: int, email: string, now: int): (token: string)
    ensures Decode(token) == Some(Claims(Some(now), Some(now + TokenLifetime), Some(userId), Some(email)))
  {
    var claims := Claims(Some(now), Some(now + TokenLifetime), Some(userId), Some(email));
    DecodeEncode(claims);
    Encode(claims)
  }

  /**
   * PHP's `!$decoded`: decoding failed, or it produced an empty array. In this model
   * the only keys are the four claims, so the empty array is the claim set with none.
   */
  predicate IsFalsy(decoded: Option<Claims>)
  {
    decoded.None? || decoded.value == Claims(None, None, None, None)
  }

  /**
   * `verifyToken(token)` at time `now`: the decoded claims, or `None` for PHP's `false`.
   * A token is accepted exactly when it decodes, carries `exp` and `user_id`, and `exp`
   * is not before `now`; what is returned is the decoded claim set as it is.
   */
  function VerifyToken(token: string, now: int): (r: Option<Claims>)
    ensures r.Some? <==> Decode(token).Some? && Decode(token).value.exp.Some?
                         && Decode(token).value.userId.Some? && now <= Decode(token).value.exp.value
    ensures r.Some? ==> r == Decode(token)
  {
    var decoded := Decode(token);
    if IsFalsy(decoded) || decoded.value.exp.None? || decoded.value.userId.None? then None
    else if decoded.value.exp.value < now then None
    else decoded
  }

  /**
   * A token issued at `issuedAt` is accepted at `now` exactly up to and including the
   * instant `issuedAt + TokenLifetime`, and then names the user and email it was issued for.
   */
  lemma IssuedTokenVerifies(userId: int, email: string, issuedAt: int, now: int)
    ensures VerifyToken(GenerateToken(userId, email, issuedAt), now).Some? <==> now <= issuedAt + TokenLifetime
    ensures VerifyToken(GenerateToken(userId, email, issuedAt), now).Some? ==>
              VerifyToken(GenerateToken(userId, email, issuedAt), now).value
                == Claims(Some(issuedAt), Some(issuedAt + TokenLifetime), Some(userId), Some(email))
  {
  }

  /** Expiry is strict: a token is still good at the instant `exp` and refused one second later. */
  lemma ExpiryBoundary(c: Claims, now: int)
    requires c.userId.Some? && c.exp.Some?
    ensures c.exp.value == now ==> VerifyToken(Encode(c), now) == Some(c)
    ensures c.exp.value < now ==> VerifyToken(Encode(c), now) == None
  {
    DecodeEncode(c);
  }

  /** A malformed token, or one without `exp` or without `user_id`, is refused at any time. */
  lemma RejectsIncomplete(token: string, now: int)
    requires Decode(token).None? || Decode(token).value.exp.None? || Decode(token).value.userId.None?
    ensures VerifyToken(token, now) == None
  {
  }

  /**
   * No integrity check: any claim set with a `user_id` and an `exp` not before `now`,
   * whoever encoded it and whatever the other fields hold, is accepted unchanged.
   */
  lemma ForgedTokenVerifies(c: Claims, now: int)
    requires c.userId.Some? && c.exp.Some? && now <= c.exp.value
    ensures VerifyToken(Encode(c), now) == Some(c)
  {
    DecodeEncode(c);
  }
}

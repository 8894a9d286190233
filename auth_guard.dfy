/**
 * The guard at the top of coach_data.php and profile.php (the two copies are the same
 * code): GET only, an `Authorization` header, strip `Bearer `, verify the token, and
 * take its `user_id` as the subject of the request.
 */
module AuthGuard {
  import opened Wrappers
  import opened PhpStrings
  import opened ClaimsCodec
  import opened Tokens
  import opened Responses
  import opened Http

  const BearerPrefix: string := "Bearer "

  /** `str_replace('Bearer ', '', $header)`: every occurrence goes, not just a leading one. */
  function ExtractToken(header: string): (t: string)
    ensures |t| <= |header|
  {
    RemoveAll(header, BearerPrefix)
  }

  /** Either the subject (the token's `user_id`) or the envelope the script stops with. */
  datatype GuardResult = Authenticated(subject: int) | Rejected(response: map<string, Value>)

  function Guard(req: Request, now: int): (g: GuardResult)
    ensures req.verb != "GET" ==> g == Rejected(SendResponse(false, "Method not allowed", None))
    ensures req.verb == "GET" && "Authorization" !in req.headers ==>
              g == Rejected(SendResponse(false, "Authorization required", None))
    ensures req.verb == "GET" && "Authorization" in req.headers ==>
              var verified := VerifyToken(ExtractToken(req.headers["Authorization"]), now);
              && (g.Authenticated? <==> verified.Some?)
              && (g.Authenticated? ==> verified.value.userId == Some(g.subject))
              && (g.Rejected? ==> g == Rejected(SendResponse(false, "Invalid or expired token", None)))
  {
    if req.verb != "GET" then Rejected(SendResponse(false, "Method not allowed", None))
    else if "Authorization" !in req.headers then Rejected(SendResponse(false, "Authorization required", None))
    else
      var token := ExtractToken(req.headers["Authorization"]);
      var decoded := VerifyToken(token, now);
      if decoded.None? then Rejected(SendResponse(false, "Invalid or expired token", None))
      else Authenticated(decoded.value.userId.value)
  }

  /** A token without spaces, as every encoded token is, comes through the stripping intact, with or without the prefix. */
  lemma ExtractPlainToken(token: string)
    requires ' ' !in token
    ensures ExtractToken(BearerPrefix + token) == token
    ensures ExtractToken(token) == token
  {
    RemoveAllLeading(BearerPrefix, token);
    RemoveAllAbsent(token, BearerPrefix, 6);
  }

  /**
   * A GET carrying a token the service issued, whatever its email holds, is let through
   * as the token's user exactly while the token is within its 24 hours, and is otherwise
   * refused as invalid or expired.
   */
  lemma GuardOnIssuedToken(req: Request, userId: int, email: string, issuedAt: int, now: int)
    requires req.verb == "GET" && "Authorization" in req.headers
    requires req.headers["Authorization"] == BearerPrefix + GenerateToken(userId, email, issuedAt)
    ensures now <= issuedAt + TokenLifetime ==> Guard(req, now) == Authenticated(userId)
    ensures now > issuedAt + TokenLifetime ==> Guard(req, now) == Rejected(SendResponse(false, "Invalid or expired token", None))
  {
    var claims := Claims(Some(issuedAt), Some(issuedAt + TokenLifetime), Some(userId), Some(email));
    NoSpaceInEncoding(claims);
    ExtractPlainToken(GenerateToken(userId, email, issuedAt));
  }

  /**
   * Impersonation: anyone who writes the encoding of a claim set with a chosen `user_id`
   * and an `exp` not yet passed is let through as that user; nothing else is needed.
   */
  lemma GuardAcceptsForgedToken(req: Request, victim: int, exp: int, now: int)
    requires req.verb == "GET" && "Authorization" in req.headers
    requires req.headers["Authorization"] == BearerPrefix + Encode(Claims(None, Some(exp), Some(victim), None))
    requires now <= exp
    ensures Guard(req, now) == Authenticated(victim)
  {
    var forged := Claims(None, Some(exp), Some(victim), None);
    NoSpaceInEncoding(forged);
    ExtractPlainToken(Encode(forged));
    ForgedTokenVerifies(forged, now);
  }
}

/**
 * Properties that run across endpoints: what a client can do with the token one
 * endpoint hands out, and how the two protected endpoints treat the same request.
 */
module Scenarios {
  import opened Wrappers
  import opened PhpStrings
  import opened ClaimsCodec
  import opened Tokens
  import opened Store
  import opened Responses
  import opened Http
  import opened AuthGuard
  import opened CoachDataEndpoint
  import opened ProfileEndpoint
  import opened LoginEndpoint
  import opened RegisterEndpoint

  /** Registration followed by a login with the same email and password logs in as the new row. */
  lemma RegisterThenLogin(users: seq<UserRow>, nextUserId: int, reg: Request, login: Request,
                          registeredAt: int, now: int, salt: nat)
    requires IsRegistration(reg) && IsValidEmail(Trim(reg.body["email"]))
    requires forall k :: 0 <= k < |users| ==> users[k].email != Trim(reg.body["email"])
    requires IsLoginAttempt(login)
    requires login.body["email"] == reg.body["email"] && login.body["password"] == reg.body["password"]
    ensures var after := RegisterOutcome(users, nextUserId, reg, registeredAt, salt, None).users;
            Login(after, login, now)
              == Success("Login successful",
                         Account(nextUserId, Trim(reg.body["name"]), Trim(reg.body["email"]),
                                 GenerateToken(nextUserId, Trim(reg.body["email"]), now)))
  {
    RegisterAppendsNewUser(users, nextUserId, reg, registeredAt, salt);
    var after := RegisterOutcome(users, nextUserId, reg, registeredAt, salt, None).users;
    assert after == users + [NewUserRow(nextUserId, reg, registeredAt, salt)];
    assert after[|users|] == NewUserRow(nextUserId, reg, registeredAt, salt);
    assert UserIndexByEmail(after, Trim(login.body["email"])) == Some(|users|) by {
      assert forall k :: 0 <= k < |users| ==> after[k] == users[k];
    }
  }

  /** In a well-formed store, nobody owns a child under an id no user has yet. */
  lemma NoChildrenForFreshId(users: seq<UserRow>, children: seq<ChildRow>, nextUserId: int)
    requires WellFormed(users, children, nextUserId)
    ensures ChildrenOf(children, nextUserId) == []
  {
    if ChildrenOf(children, nextUserId) != [] {
      ChildrenOfExact(children, nextUserId, ChildrenOf(children, nextUserId)[0]);
    }
  }

  /**
   * A fresh registrant who shows the issued token to profile.php within 24 hours gets
   * their own row back, without the password, and an empty list of children.
   */
  lemma RegisterThenProfile(users: seq<UserRow>, children: seq<ChildRow>, nextUserId: int, reg: Request,
                            profile: Request, registeredAt: int, now: int, salt: nat)
    requires WellFormed(users, children, nextUserId)
    requires IsRegistration(reg) && IsValidEmail(Trim(reg.body["email"]))
    requires forall k :: 0 <= k < |users| ==> users[k].email != Trim(reg.body["email"])
    requires profile.verb == "GET" && "Authorization" in profile.headers
    requires profile.headers["Authorization"]
               == BearerPrefix + GenerateToken(nextUserId, Trim(reg.body["email"]), registeredAt)
    requires now <= registeredAt + TokenLifetime
    ensures var after := RegisterOutcome(users, nextUserId, reg, registeredAt, salt, None).users;
            ProfileReply(after, children, profile, now)
              == Success("Profile retrieved successfully",
                         ProfileData(PublicUser(nextUserId, Trim(reg.body["name"]), Trim(reg.body["email"]), registeredAt), []))
  {
    RegisterAppendsNewUser(users, nextUserId, reg, registeredAt, salt);
    RegisterPreservesWellFormed(users, children, nextUserId, reg, registeredAt, salt, None);
    var after := RegisterOutcome(users, nextUserId, reg, registeredAt, salt, None).users;
    GuardOnIssuedToken(profile, nextUserId, Trim(reg.body["email"]), registeredAt, now);
    assert after[|users|] == NewUserRow(nextUserId, reg, registeredAt, salt);
    NoChildrenForFreshId(users, children, nextUserId);
    ProfileOfSubject(after, children, profile, now, |users|);
  }

  /** One user asking for another user's child is refused, as if the child did not exist. */
  lemma CrossAccountChildRefused(children: seq<ChildRow>, req: Request, now: int, k: nat)
    requires UniqueChildIds(children)
    requires !IsPreflight(req) && Guard(req, now).Authenticated?
    requires k < |children| && children[k].userId != Guard(req, now).subject
    requires RequestedChildId(req) == children[k].id && children[k].id > 0
    ensures CoachData(children, req, now) == Failure("Child not found or not authorized")
  {
  }

  /** A token whose `exp` has passed is refused by both protected endpoints in the same words. */
  lemma ExpiredTokenRefusedEverywhere(users: seq<UserRow>, children: seq<ChildRow>, req: Request, now: int, c: Claims)
    requires req.verb == "GET" && "Authorization" in req.headers
    requires Decode(ExtractToken(req.headers["Authorization"])) == Some(c)
    requires c.exp.Some? && c.exp.value < now
    ensures ProfileReply(users, children, req, now) == Failure("Invalid or expired token")
    ensures CoachData(children, req, now) == Failure("Invalid or expired token")
  {
  }

  /** Whatever the guard refuses, profile.php and coach_data.php answer identically. */
  lemma GuardRefusalsAlike(users: seq<UserRow>, children: seq<ChildRow>, req: Request, now: int)
    requires Guard(req, now).Rejected?
    ensures ProfileReply(users, children, req, now) == CoachData(children, req, now)
    ensures !IsPreflight(req) ==> ProfileReply(users, children, req, now) == Json(Guard(req, now).response)
  {
  }
}

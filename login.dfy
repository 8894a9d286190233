/**
 * login.php: look the user up by email, check the password, issue a token. Both ways
 * of failing, an unknown email and a wrong password, answer with the same message.
 * It only reads the users table.
 */
module LoginEndpoint {
  import opened Wrappers
  import opened PhpStrings
  import opened Passwords
  import opened Tokens
  import opened Store
  import opened Responses
  import opened Http

  /** What login.php answers for `req` at time `now`. */
  function Login(users: seq<UserRow>, req: Request, now: int): (r: Reply)
    ensures IsSuccess(r) ==> IsLoginAttempt(req)
    ensures IsSuccess(r) ==>
              exists i :: 0 <= i < |users| && users[i].email == Trim(req.body["email"])
                          && (forall k :: 0 <= k < i ==> users[k].email != Trim(req.body["email"]))
                          && PasswordVerify(req.body["password"], users[i].password)
                          && r == Success("Login successful",
                                          Account(users[i].id, users[i].name, users[i].email,
                                                  GenerateToken(users[i].id, users[i].email, now)))
  {
    if IsPreflight(req) then Preflight
    else if req.verb != "POST" then Failure("Method not allowed")
    else if "email" !in req.body || "password" !in req.body then Failure("Missing required fields")
    else
      var email := Trim(req.body["email"]);
      var password := req.body["password"];
      match UserIndexByEmail(users, email)
      case None => Failure("Invalid email or password")
      case Some(i) =>
        var user := users[i];
        if !PasswordVerify(password, user.password) then Failure("Invalid email or password")
        else Success("Login successful", Account(user.id, user.name, user.email, GenerateToken(user.id, user.email, now)))
  }

  /** A well-formed login request: POST, with both fields present. */
  predicate IsLoginAttempt(req: Request)
  {
    !IsPreflight(req) && req.verb == "POST" && "email" in req.body && "password" in req.body
  }

  /** An email nobody registered is refused with the generic message. */
  lemma LoginUnknownEmail(users: seq<UserRow>, req: Request, now: int)
    requires IsLoginAttempt(req)
    requires forall k :: 0 <= k < |users| ==> users[k].email != Trim(req.body["email"])
    ensures Login(users, req, now) == Failure("Invalid email or password")
  {
  }

  /**
   * For a registered email, the password decides: the right one logs in as the stored
   * row, and its token names that row's id and email; a wrong one gets exactly the
   * reply an unknown email gets.
   */
  lemma LoginKnownEmail(users: seq<UserRow>, req: Request, now: int, i: nat)
    requires UniqueEmails(users)
    requires IsLoginAttempt(req)
    requires i < |users| && users[i].email == Trim(req.body["email"])
    ensures PasswordVerify(req.body["password"], users[i].password) ==>
              Login(users, req, now) == Success("Login successful",
                Account(users[i].id, users[i].name, users[i].email, GenerateToken(users[i].id, users[i].email, now)))
    ensures !PasswordVerify(req.body["password"], users[i].password) ==>
              Login(users, req, now) == Failure("Invalid email or password")
  {
    assert UserIndexByEmail(users, users[i].email) == Some(i);
  }

  /** The malformed requests: the method is checked first, then the two fields. */
  lemma LoginRejectsMalformed(users: seq<UserRow>, req: Request, now: int)
    requires !IsPreflight(req)
    ensures req.verb != "POST" ==> Login(users, req, now) == Failure("Method not allowed")
    ensures req.verb == "POST" && ("email" !in req.body || "password" !in req.body) ==>
              Login(users, req, now) == Failure("Missing required fields")
  {
  }
}

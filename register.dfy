/**
 * register.php: validate, refuse an email that is already in the users table, hash
 * the password, insert one row and issue a token for it. The insert is the only
 * write any endpoint makes. Whether the INSERT statement itself fails (and with what
 * error text) is decided by the database, so it is the parameter `insertError`; the
 * salt `password_hash` draws is the parameter `salt`.
 */
module RegisterEndpoint {
  import opened Wrappers
  import opened PhpStrings
  import opened Passwords
  import opened ClaimsCodec
  import opened Tokens
  import opened Store
  import opened Responses
  import opened Http

  /** The reply, and the users table and AUTO_INCREMENT counter afterwards. */
  datatype Outcome = Outcome(reply: Reply, users: seq<UserRow>, nextUserId: int)

  /** A well-formed registration request: POST, with all three fields present. */
  predicate IsRegistration(req: Request)
  {
    !IsPreflight(req) && req.verb == "POST" && "name" in req.body && "email" in req.body && "password" in req.body
  }

  /** The row an accepted registration inserts. */
  function NewUserRow(id: int, req: Request, now: int, salt: nat): UserRow
    requires IsRegistration(req)
  {
    UserRow(id, Trim(req.body["name"]), Trim(req.body["email"]), HashPassword(req.body["password"], salt), now)
  }

  /**
   * What register.php does, on values. The table is either left as it was or grows by
   * exactly one row at the end, and the reply is a success exactly when it grew.
   */
  function RegisterOutcome(users: seq<UserRow>, nextUserId: int, req: Request, now: int, salt: nat,
                           insertError: Option<string>): (o: Outcome)
    ensures o.users == users || (|o.users| == |users| + 1 && o.users == users + [o.users[|users|]])
    ensures IsSuccess(o.reply) <==> o.users != users
    ensures o.users != users ==> o.nextUserId == nextUserId + 1 && o.users[|users|].id == nextUserId
    ensures o.users == users ==> o.nextUserId == nextUserId
  {
    if IsPreflight(req) then Outcome(Preflight, users, nextUserId)
    else if req.verb != "POST" then Outcome(Failure("Method not allowed"), users, nextUserId)
    else if "name" !in req.body || "email" !in req.body || "password" !in req.body then
      Outcome(Failure("Missing required fields"), users, nextUserId)
    else
      var name := Trim(req.body["name"]);
      var email := Trim(req.body["email"]);
      var password := req.body["password"];
      if !IsValidEmail(email) then Outcome(Failure("Invalid email format"), users, nextUserId)
      else if UserIndexByEmail(users, email).Some? then Outcome(Failure("Email already registered"), users, nextUserId)
      else
        var hashed := HashPassword(password, salt);
        match insertError
        case Some(error) => Outcome(Failure("Registration failed: " + error), users, nextUserId)
        case None =>
          var row := NewUserRow(nextUserId, req, now, salt);
          var token := GenerateToken(nextUserId, email, now);
          assert (users + [row])[|users|] == row;
          Outcome(Success("Registration successful", Account(nextUserId, name, email, token)), users + [row], nextUserId + 1)
  }

  /**
   * The malformed requests, refused in the source's order (method, then the three
   * fields, then the email's format), each leaving the table and counter alone.
   */
  lemma RegisterRejectsMalformed(users: seq<UserRow>, nextUserId: int, req: Request, now: int, salt: nat,
                                 insertError: Option<string>)
    requires !IsPreflight(req)
    ensures req.verb != "POST" ==>
              RegisterOutcome(users, nextUserId, req, now, salt, insertError)
                == Outcome(Failure("Method not allowed"), users, nextUserId)
    ensures req.verb == "POST" && ("name" !in req.body || "email" !in req.body || "password" !in req.body) ==>
              RegisterOutcome(users, nextUserId, req, now, salt, insertError)
                == Outcome(Failure("Missing required fields"), users, nextUserId)
    ensures IsRegistration(req) && !IsValidEmail(Trim(req.body["email"])) ==>
              RegisterOutcome(users, nextUserId, req, now, salt, insertError)
                == Outcome(Failure("Invalid email format"), users, nextUserId)
  {
  }

  /** An email that is already registered is refused and the table is left alone. */
  lemma RegisterRejectsDuplicate(users: seq<UserRow>, nextUserId: int, req: Request, now: int, salt: nat,
                                 insertError: Option<string>, i: nat)
    requires IsRegistration(req) && IsValidEmail(Trim(req.body["email"]))
    requires i < |users| && users[i].email == Trim(req.body["email"])
    ensures RegisterOutcome(users, nextUserId, req, now, salt, insertError)
              == Outcome(Failure("Email already registered"), users, nextUserId)
  {
  }

  /**
   * An accepted registration appends exactly the new row: the trimmed name and email,
   * the hash of the password, the next id. Every earlier row stays as it was. The reply
   * names the new id, and its token carries that id and the email.
   */
  lemma RegisterAppendsNewUser(users: seq<UserRow>, nextUserId: int, req: Request, now: int, salt: nat)
    requires IsRegistration(req) && IsValidEmail(Trim(req.body["email"]))
    requires forall k :: 0 <= k < |users| ==> users[k].email != Trim(req.body["email"])
    ensures var o := RegisterOutcome(users, nextUserId, req, now, salt, None);
            && o.users == users + [NewUserRow(nextUserId, req, now, salt)]
            && o.nextUserId == nextUserId + 1
            && o.reply.Json? && "data" in o.reply.body && o.reply.body["data"].payload.Account?
            && var account := o.reply.body["data"].payload;
               && account == Account(nextUserId, Trim(req.body["name"]), Trim(req.body["email"]),
                                     GenerateToken(nextUserId, Trim(req.body["email"]), now))
               && Decode(account.token) == Some(Claims(Some(now), Some(now + TokenLifetime), Some(nextUserId), Some(Trim(req.body["email"]))))
  {
  }

  /** A failed INSERT leaves the table alone and reports the database's error text. */
  lemma RegisterInsertFails(users: seq<UserRow>, nextUserId: int, req: Request, now: int, salt: nat, error: string)
    requires IsRegistration(req) && IsValidEmail(Trim(req.body["email"]))
    requires forall k :: 0 <= k < |users| ==> users[k].email != Trim(req.body["email"])
    ensures RegisterOutcome(users, nextUserId, req, now, salt, Some(error))
              == Outcome(Failure("Registration failed: " + error), users, nextUserId)
  {
  }

  /** Registration keeps the tables well formed: in particular no email is ever held twice. */
  lemma RegisterPreservesWellFormed(users: seq<UserRow>, children: seq<ChildRow>, nextUserId: int, req: Request,
                                    now: int, salt: nat, insertError: Option<string>)
    requires WellFormed(users, children, nextUserId)
    ensures var o := RegisterOutcome(users, nextUserId, req, now, salt, insertError);
            WellFormed(o.users, children, o.nextUserId)
  {
    var o := RegisterOutcome(users, nextUserId, req, now, salt, insertError);
    if o.users != users {
      var row := o.users[|users|];
      assert o.users == users + [row];
      assert forall k :: 0 <= k < |users| ==> users[k].email != row.email;
      forall j | 0 <= j < |children| ensures UserExists(o.users, children[j].userId) {
        var i :| 0 <= i < |users| && users[i].id == children[j].userId;
        assert o.users[i] == users[i];
      }
    }
  }

  /**
   * The script run against the database: the same checks in the same order, then the
   * insert of one row. The children table is never touched.
   */
  method Register(db: Database, req: Request, now: int, salt: nat, insertError: Option<string>) returns (reply: Reply)
    requires db.Valid()
    modifies db
    ensures db.Valid()
    ensures db.children == old(db.children)
    ensures Outcome(reply, db.users, db.nextUserId)
              == RegisterOutcome(old(db.users), old(db.nextUserId), req, now, salt, insertError)
  {
    RegisterPreservesWellFormed(db.users, db.children, db.nextUserId, req, now, salt, insertError);
    if IsPreflight(req) {
      return Preflight;
    }
    if req.verb != "POST" {
      return Failure("Method not allowed");
    }
    if "name" !in req.body || "email" !in req.body || "password" !in req.body {
      return Failure("Missing required fields");
    }
    var name := Trim(req.body["name"]);
    var email := Trim(req.body["email"]);
    var password := req.body["password"];
    if !IsValidEmail(email) {
      return Failure("Invalid email format");
    }
    if UserIndexByEmail(db.users, email).Some? {
      return Failure("Email already registered");
    }
    var hashed := HashPassword(password, salt);
    if insertError.Some? {
      return Failure("Registration failed: " + insertError.value);
    }
    var userId := db.nextUserId;
    db.users := db.users + [NewUserRow(userId, req, now, salt)];
    db.nextUserId := db.nextUserId + 1;
    var token := GenerateToken(userId, email, now);
    reply := Success("Registration successful", Account(userId, name, email, token));
  }
}

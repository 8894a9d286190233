/**
 * profile.php: the guard, the user row of the subject, and every child row the subject
 * owns, gathered one row at a time. The endpoint only reads the store.
 */
module ProfileEndpoint {
  import opened Wrappers
  import opened Store
  import opened Responses
  import opened Http
  import opened AuthGuard

  /** What profile.php answers, as a function of the tables, the request and the clock. */
  function ProfileReply(users: seq<UserRow>, children: seq<ChildRow>, req: Request, now: int): (r: Reply)
    ensures IsSuccess(r) ==>
              && !IsPreflight(req) && Guard(req, now).Authenticated?
              && UserExists(users, Guard(req, now).subject)
              && "data" in r.body && r.body["data"].DataValue? && r.body["data"].payload.ProfileData?
              && UserIndexById(users, Guard(req, now).subject).Some?
              && r.body["data"].payload.user == Public(users[UserIndexById(users, Guard(req, now).subject).value])
              && r.body["data"].payload.user.id == Guard(req, now).subject
              && r.body["data"].payload.children == ChildrenOf(children, Guard(req, now).subject)
  {
    if IsPreflight(req) then Preflight
    else match Guard(req, now)
      case Rejected(response) => Json(response)
      case Authenticated(subject) =>
        match UserIndexById(users, subject)
        case None => Failure("User not found")
        case Some(i) => Success("Profile retrieved successfully", ProfileData(Public(users[i]), ChildrenOf(children, subject)))
  }

  /** The `while ($child = $result->fetch_assoc())` loop: the selected columns of each row the user owns. */
  method FetchChildren(db: Database, userId: int) returns (result: seq<ChildView>)
    ensures result == ChildrenOf(db.children, userId)
  {
    result := [];
    var i := 0;
    while i < |db.children|
      invariant 0 <= i <= |db.children|
      invariant result == ChildrenOf(db.children[..i], userId)
    {
      var child := db.children[i];
      ChildrenOfAppend(db.children[..i], [child], userId);
      assert db.children[..i + 1] == db.children[..i] + [child];
      assert [child][1..] == [];
      if child.userId == userId {
        result := result + [View(child)];
      }
      i := i + 1;
    }
    assert db.children[..i] == db.children;
  }

  /** The script itself, in its own order; it changes nothing in the database. */
  method Profile(db: Database, req: Request, now: int) returns (reply: Reply)
    ensures reply == ProfileReply(db.users, db.children, req, now)
  {
    if IsPreflight(req) {
      return Preflight;
    }
    var guard := Guard(req, now);
    if guard.Rejected? {
      return Json(guard.response);
    }
    var userId := guard.subject;
    var found := UserIndexById(db.users, userId);
    if found.None? {
      return Failure("User not found");
    }
    var user := Public(db.users[found.value]);
    var children := FetchChildren(db, userId);
    reply := Success("Profile retrieved successfully", ProfileData(user, children));
  }

  /** A token whose subject has no user row is refused, although the token itself is valid. */
  lemma ProfileUserNotFound(users: seq<UserRow>, children: seq<ChildRow>, req: Request, now: int)
    requires !IsPreflight(req) && Guard(req, now).Authenticated?
    requires !UserExists(users, Guard(req, now).subject)
    ensures ProfileReply(users, children, req, now) == Failure("User not found")
  {
  }

  /**
   * For a subject with a user row, the profile is that row without its password,
   * together with the subject's children in store order, and nobody else's.
   */
  lemma ProfileOfSubject(users: seq<UserRow>, children: seq<ChildRow>, req: Request, now: int, i: nat)
    requires UniqueUserIds(users)
    requires !IsPreflight(req) && Guard(req, now).Authenticated?
    requires i < |users| && users[i].id == Guard(req, now).subject
    ensures ProfileReply(users, children, req, now) ==
              Success("Profile retrieved successfully",
                      ProfileData(PublicUser(users[i].id, users[i].name, users[i].email, users[i].createdAt),
                                  ChildrenOf(children, users[i].id)))
    ensures forall v :: v in ChildrenOf(children, users[i].id) <==>
              exists k :: 0 <= k < |children| && children[k].userId == users[i].id && View(children[k]) == v
  {
    assert UserIndexById(users, users[i].id) == Some(i);
    forall v ensures v in ChildrenOf(children, users[i].id) <==>
                     exists k :: 0 <= k < |children| && children[k].userId == users[i].id && View(children[k]) == v {
      ChildrenOfExact(children, users[i].id, v);
    }
  }
}

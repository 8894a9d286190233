/**
 * coach_data.php: the guard, then the choice of the child the data is for, then a
 * constant payload. The endpoint only reads the children table.
 */
module CoachDataEndpoint {
  import opened Wrappers
  import opened Store
  import opened Responses
  import opened Http
  import opened AuthGuard

  /** `isset($_GET['child_id']) ? intval($_GET['child_id']) : 0`. */
  function RequestedChildId(req: Request): (id: int)
    ensures id != 0 ==> "child_id" in req.query && req.query["child_id"] == id
    ensures "child_id" in req.query ==> id == req.query["child_id"]
  {
    if "child_id" in req.query then req.query["child_id"] else 0
  }

  /**
   * Which child the request is for. A positive id must name a child the subject owns,
   * and a missing child and another user's child give the same error. Otherwise the
   * subject's first child in store order is taken, and a subject with none is refused.
   */
  function ResolveChild(children: seq<ChildRow>, subject: int, childId: int): (r: Result<int, string>)
    ensures childId > 0 ==> (r.Ok? <==> OwnsChild(children, childId, subject))
    ensures childId > 0 && r.Ok? ==> r.value == childId
    ensures childId > 0 && r.Err? ==> r.error == "Child not found or not authorized"
    ensures childId <= 0 ==> (r.Ok? <==> exists k :: 0 <= k < |children| && children[k].userId == subject)
    ensures childId <= 0 && r.Ok? ==>
              exists k :: 0 <= k < |children| && children[k].id == r.value && children[k].userId == subject
                          && forall j :: 0 <= j < k ==> children[j].userId != subject
    ensures childId <= 0 && r.Err? ==> r.error == "No children found for this user"
  {
    if childId > 0 then
      if OwnsChild(children, childId, subject) then Ok(childId) else Err("Child not found or not authorized")
    else
      match FirstChildIndex(children, subject)
      case None => Err("No children found for this user")
      case Some(k) => Ok(children[k].id)
  }

  /** The whole script at time `now`; the resolved id is not used by the payload. */
  function CoachData(children: seq<ChildRow>, req: Request, now: int): (r: Reply)
    ensures IsSuccess(r) ==> r == Success("Coach data retrieved successfully", CoachPayload)
    ensures IsSuccess(r) ==>
              && !IsPreflight(req) && Guard(req, now).Authenticated?
              && ResolveChild(children, Guard(req, now).subject, RequestedChildId(req)).Ok?
    ensures !IsPreflight(req) && Guard(req, now).Authenticated? ==>
              var res := ResolveChild(children, Guard(req, now).subject, RequestedChildId(req));
              && (res.Ok? ==> r == Success("Coach data retrieved successfully", CoachPayload))
              && (res.Err? ==> r == Failure(res.error))
  {
    if IsPreflight(req) then Preflight
    else match Guard(req, now)
      case Rejected(response) => Json(response)
      case Authenticated(subject) =>
        match ResolveChild(children, subject, RequestedChildId(req))
        case Err(message) => Failure(message)
        case Ok(_) => Success("Coach data retrieved successfully", CoachPayload)
  }

  /**
   * The endpoint in terms of ownership: an authenticated caller asking for a child it
   * owns, or asking for none while owning some, gets the payload; a child id it does
   * not own is refused with the merged message, and a caller owning no child who names
   * none is told so.
   */
  lemma CoachDataForOwner(children: seq<ChildRow>, req: Request, now: int)
    requires !IsPreflight(req) && Guard(req, now).Authenticated?
    ensures var subject := Guard(req, now).subject;
            var childId := RequestedChildId(req);
            && (childId > 0 && OwnsChild(children, childId, subject) ==>
                  CoachData(children, req, now) == Success("Coach data retrieved successfully", CoachPayload))
            && (childId > 0 && !OwnsChild(children, childId, subject) ==>
                  CoachData(children, req, now) == Failure("Child not found or not authorized"))
            && (childId <= 0 && (exists k :: 0 <= k < |children| && children[k].userId == subject) ==>
                  CoachData(children, req, now) == Success("Coach data retrieved successfully", CoachPayload))
            && (childId <= 0 && (forall k :: 0 <= k < |children| ==> children[k].userId != subject) ==>
                  CoachData(children, req, now) == Failure("No children found for this user"))
  {
  }

  /**
   * Resolution depends on the subject's own rows only: two stores that agree on them
   * resolve every request alike, so nothing about other users' children shows.
   */
  lemma ResolveSeesOnlyOwnRows(c1: seq<ChildRow>, c2: seq<ChildRow>, subject: int, childId: int)
    requires OwnRows(c1, subject) == OwnRows(c2, subject)
    ensures ResolveChild(c1, subject, childId) == ResolveChild(c2, subject, childId)
  {
    OwnsChildInOwnRows(c1, childId, subject);
    OwnsChildInOwnRows(c2, childId, subject);
    FirstChildIsFirstOwnRow(c1, subject);
    FirstChildIsFirstOwnRow(c2, subject);
  }

  /** The same holds for the whole endpoint: the reply is determined by the caller's own children. */
  lemma CoachDataSeesOnlyOwnRows(c1: seq<ChildRow>, c2: seq<ChildRow>, req: Request, now: int)
    requires Guard(req, now).Authenticated? ==>
               OwnRows(c1, Guard(req, now).subject) == OwnRows(c2, Guard(req, now).subject)
    ensures CoachData(c1, req, now) == CoachData(c2, req, now)
  {
    if Guard(req, now).Authenticated? {
      ResolveSeesOnlyOwnRows(c1, c2, Guard(req, now).subject, RequestedChildId(req));
    }
  }

  /**
   * Information hiding: adding another user's child to the store, wherever it goes,
   * changes no reply, so a request for it reads exactly like a request for an id
   * that does not exist.
   */
  lemma ForeignChildInvisible(before: seq<ChildRow>, after: seq<ChildRow>, foreign: ChildRow, req: Request, now: int)
    requires Guard(req, now).Authenticated? ==> foreign.userId != Guard(req, now).subject
    ensures CoachData(before + [foreign] + after, req, now) == CoachData(before + after, req, now)
  {
    if Guard(req, now).Authenticated? {
      var subject := Guard(req, now).subject;
      OwnRowsAppend(before + [foreign], after, subject);
      OwnRowsAppend(before, [foreign], subject);
      OwnRowsAppend(before, after, subject);
      assert OwnRows([foreign], subject) == [] by {
        assert [foreign][1..] == [];
      }
    }
    CoachDataSeesOnlyOwnRows(before + [foreign] + after, before + after, req, now);
  }
}

/**
 * The two tables the endpoints use, held in memory in the order rows were inserted
 * (a query without ORDER BY is read in that order), and the lookups the endpoints run.
 */
module Store {
  import opened Wrappers
  import opened Passwords

  /** A row of `users`. */
  datatype UserRow = UserRow(id: int, name: string, email: string, password: Credential, createdAt: int)

  /** A row of `children`; `userId` names the owning user. */
  datatype ChildRow = ChildRow(id: int, userId: int, name: string, age: int, interests: string)

  /** The user columns profile.php selects: id, name, email, created_at; never the password. */
  datatype PublicUser = PublicUser(id: int, name: string, email: string, createdAt: int)

  /** The child columns profile.php selects: id, name, age, interests. */
  datatype ChildView = ChildView(id: int, name: string, age: int, interests: string)

  function Public(u: UserRow): PublicUser
  {
    PublicUser(u.id, u.name, u.email, u.createdAt)
  }

  function View(c: ChildRow): ChildView
  {
    ChildView(c.id, c.name, c.age, c.interests)
  }

  /** The primary key of users is unique. */
  predicate UniqueUserIds(users: seq<UserRow>)
  {
    forall i, j :: 0 <= i < j < |users| ==> users[i].id != users[j].id
  }

  /** No two users share an email (what the check-then-insert of register.php keeps). */
  predicate UniqueEmails(users: seq<UserRow>)
  {
    forall i, j :: 0 <= i < j < |users| ==> users[i].email != users[j].email
  }

  /** The primary key of children is unique. */
  predicate UniqueChildIds(children: seq<ChildRow>)
  {
    forall i, j :: 0 <= i < j < |children| ==> children[i].id != children[j].id
  }

  /** Some user has the id `id`. */
  predicate UserExists(users: seq<UserRow>, id: int)
  {
    exists i :: 0 <= i < |users| && users[i].id == id
  }

  /**
   * What the model assumes of the tables: unique keys and emails, every user id below
   * the next AUTO_INCREMENT value, and every child owned by a user that exists.
   */
  predicate WellFormed(users: seq<UserRow>, children: seq<ChildRow>, nextUserId: int)
  {
    && UniqueUserIds(users)
    && UniqueEmails(users)
    && UniqueChildIds(children)
    && (forall i :: 0 <= i < |users| ==> users[i].id < nextUserId)
    && (forall j :: 0 <= j < |children| ==> UserExists(users, children[j].userId))
  }

  /** The index of the first row that `matches` holds of: what a query gives as its first row. */
  function FirstIndex<T>(rows: seq<T>, matches: T -> bool): (r: Option<nat>)
    ensures r.Some? ==> r.value < |rows| && matches(rows[r.value])
                        && forall k :: 0 <= k < r.value ==> !matches(rows[k])
    ensures r.None? ==> forall k :: 0 <= k < |rows| ==> !matches(rows[k])
  {
    if rows == [] then None
    else if matches(rows[0]) then Some(0)
    else match FirstIndex(rows[1..], matches)
      case None => None
      case Some(k) => Some(k + 1)
  }

  /** `SELECT .. FROM users WHERE email = ?`, first row: its index. */
  function UserIndexByEmail(users: seq<UserRow>, email: string): (r: Option<nat>)
    ensures r.Some? ==> r.value < |users| && users[r.value].email == email
                        && forall k :: 0 <= k < r.value ==> users[k].email != email
    ensures r.None? ==> forall k :: 0 <= k < |users| ==> users[k].email != email
  {
    FirstIndex(users, (u: UserRow) => u.email == email)
  }

  /** `SELECT .. FROM users WHERE id = ?`, first row: its index. */
  function UserIndexById(users: seq<UserRow>, id: int): (r: Option<nat>)
    ensures r.Some? ==> r.value < |users| && users[r.value].id == id
                        && forall k :: 0 <= k < r.value ==> users[k].id != id
    ensures r.None? ==> forall k :: 0 <= k < |users| ==> users[k].id != id
  {
    FirstIndex(users, (u: UserRow) => u.id == id)
  }

  /** `SELECT id FROM children WHERE user_id = ? LIMIT 1`, taken in store order: its index. */
  function FirstChildIndex(children: seq<ChildRow>, userId: int): (r: Option<nat>)
    ensures r.Some? ==> r.value < |children| && children[r.value].userId == userId
                        && forall k :: 0 <= k < r.value ==> children[k].userId != userId
    ensures r.None? ==> forall k :: 0 <= k < |children| ==> children[k].userId != userId
  {
    FirstIndex(children, (c: ChildRow) => c.userId == userId)
  }

  /** `SELECT id FROM children WHERE id = ? AND user_id = ?` returns a row. */
  predicate OwnsChild(children: seq<ChildRow>, childId: int, userId: int)
  {
    exists k :: 0 <= k < |children| && children[k].id == childId && children[k].userId == userId
  }

  /** The rows of `children` owned by `userId`, in store order. */
  function OwnRows(children: seq<ChildRow>, userId: int): (r: seq<ChildRow>)
    ensures forall k :: 0 <= k < |r| ==> r[k].userId == userId
    ensures |r| <= |children|
  {
    if children == [] then []
    else (if children[0].userId == userId then [children[0]] else []) + OwnRows(children[1..], userId)
  }

  /** Exactly the rows the user owns are kept. */
  lemma {:induction false} OwnRowsMembers(children: seq<ChildRow>, userId: int)
    ensures forall x :: x in OwnRows(children, userId) <==> x in children && x.userId == userId
  {
    if children != [] {
      OwnRowsMembers(children[1..], userId);
      assert children == [children[0]] + children[1..];
    }
  }

  /** `SELECT id, name, age, interests FROM children WHERE user_id = ?`, all rows in store order. */
  function ChildrenOf(children: seq<ChildRow>, userId: int): (r: seq<ChildView>)
    ensures |r| == |OwnRows(children, userId)|
  {
    if children == [] then []
    else (if children[0].userId == userId then [View(children[0])] else []) + ChildrenOf(children[1..], userId)
  }

  /** Filtering distributes over concatenation: store order is kept. */
  lemma {:induction false} ChildrenOfAppend(a: seq<ChildRow>, b: seq<ChildRow>, userId: int)
    ensures ChildrenOf(a + b, userId) == ChildrenOf(a, userId) + ChildrenOf(b, userId)
  {
    if a != [] {
      var head := if a[0].userId == userId then [View(a[0])] else [];
      ChildrenOfAppend(a[1..], b, userId);
      assert (a + b)[0] == a[0] && (a + b)[1..] == a[1..] + b;
    } else {
      assert a + b == b;
    }
  }

  /** Selecting a user's own rows distributes over concatenation: store order is kept. */
  lemma {:induction false} OwnRowsAppend(a: seq<ChildRow>, b: seq<ChildRow>, userId: int)
    ensures OwnRows(a + b, userId) == OwnRows(a, userId) + OwnRows(b, userId)
  {
    if a == [] {
      assert a + b == b;
    } else {
      assert (a + b)[1..] == a[1..] + b;
      OwnRowsAppend(a[1..], b, userId);
    }
  }

  /** The listing is the user's own rows, in store order, each cut down to the selected columns. */
  lemma {:induction false} ChildrenOfOwnRows(children: seq<ChildRow>, userId: int)
    ensures forall k :: 0 <= k < |ChildrenOf(children, userId)| ==>
              ChildrenOf(children, userId)[k] == View(OwnRows(children, userId)[k])
  {
    if children != [] {
      ChildrenOfOwnRows(children[1..], userId);
    }
  }

  /** The profile's children are exactly the views of the rows owned by `userId`. */
  lemma {:induction false} ChildrenOfExact(children: seq<ChildRow>, userId: int, v: ChildView)
    ensures v in ChildrenOf(children, userId) <==>
              exists k :: 0 <= k < |children| && children[k].userId == userId && View(children[k]) == v
  {
    if children != [] {
      ChildrenOfExact(children[1..], userId, v);
      if v in ChildrenOf(children[1..], userId) {
        var k :| 0 <= k < |children[1..]| && children[1..][k].userId == userId && View(children[1..][k]) == v;
        assert children[k + 1] == children[1..][k];
      }
      if exists k :: 0 <= k < |children| && children[k].userId == userId && View(children[k]) == v {
        var k :| 0 <= k < |children| && children[k].userId == userId && View(children[k]) == v;
        if k > 0 {
          assert children[1..][k - 1] == children[k];
        }
      }
    }
  }

  /** Some row of `rows` has the id `id`. */
  predicate HasId(rows: seq<ChildRow>, id: int)
  {
    exists k :: 0 <= k < |rows| && rows[k].id == id
  }

  lemma HasIdAppend(a: seq<ChildRow>, b: seq<ChildRow>, id: int)
    ensures HasId(a + b, id) <==> HasId(a, id) || HasId(b, id)
  {
    if HasId(a + b, id) {
      var k :| 0 <= k < |a + b| && (a + b)[k].id == id;
      if k >= |a| {
        assert b[k - |a|] == (a + b)[k];
      }
    }
    if HasId(a, id) {
      var k :| 0 <= k < |a| && a[k].id == id;
      assert (a + b)[k] == a[k];
    }
    if HasId(b, id) {
      var k :| 0 <= k < |b| && b[k].id == id;
      assert (a + b)[|a| + k] == b[k];
    }
  }

  /** The store has an owned row with id `childId` exactly when the owner's own rows have one. */
  lemma {:induction false} OwnsChildInOwnRows(children: seq<ChildRow>, childId: int, userId: int)
    ensures OwnsChild(children, childId, userId) <==> HasId(OwnRows(children, userId), childId)
  {
    if children != [] {
      var head := if children[0].userId == userId then [children[0]] else [];
      OwnsChildInOwnRows(children[1..], childId, userId);
      HasIdAppend(head, OwnRows(children[1..], userId), childId);
      if OwnsChild(children, childId, userId) {
        var k :| 0 <= k < |children| && children[k].id == childId && children[k].userId == userId;
        if k > 0 {
          assert children[1..][k - 1] == children[k];
        } else {
          assert head[0] == children[0];
        }
      }
      if OwnsChild(children[1..], childId, userId) {
        var k :| 0 <= k < |children[1..]| && children[1..][k].id == childId && children[1..][k].userId == userId;
        assert children[k + 1] == children[1..][k];
      }
      if HasId(head, childId) {
        assert children[0].id == childId && children[0].userId == userId;
      }
    }
  }

  /** The owner's first row in store order is the first of its own rows. */
  lemma {:induction false} FirstChildIsFirstOwnRow(children: seq<ChildRow>, userId: int)
    ensures FirstChildIndex(children, userId).None? <==> OwnRows(children, userId) == []
    ensures FirstChildIndex(children, userId).Some? ==>
              children[FirstChildIndex(children, userId).value] == OwnRows(children, userId)[0]
  {
    if children != [] && children[0].userId != userId {
      FirstChildIsFirstOwnRow(children[1..], userId);
    }
  }

  /**
   * The in-memory database: the two tables and the AUTO_INCREMENT counter of users.
   * Writes go through register.php's insert, which is a method over this state.
   */
  class Database {
    var users: seq<UserRow>
    var children: seq<ChildRow>
    var nextUserId: int

    ghost predicate Valid()
      reads this
    {
      WellFormed(users, children, nextUserId)
    }

    /** An empty database whose first user gets id 1. */
    constructor ()
      ensures Valid()
      ensures users == [] && children == [] && nextUserId == 1
    {
      users, children, nextUserId := [], [], 1;
    }
  }
}

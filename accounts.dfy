/**
 * The shared tables of the public schema — `users`, `wiki_rooms` and
 * `user_rooms` — held by one `Database` object that the admin and auth
 * endpoints update, and the authentication step every endpoint starts with
 * (`get_current_user` in backend/app/api/deps.py). Token decoding is not
 * modelled: a request carries no credentials, an invalid token, or a token
 * whose subject is a user id.
 */
module Accounts {
  import opened Common
  import opened Ordering

  /** A row of `users`; `passwordHash` is whatever the hash function produced. */
  datatype UserRow = UserRow(id: int, email: string, passwordHash: string, isActive: bool, isSuperuser: bool)

  /** A row of `wiki_rooms`; `publicTitle`/`publicSubtitle` are read back as '' when unset. */
  datatype RoomRow = RoomRow(name: string, displayName: string, publicSlug: Option<string>,
                             logoUrl: Option<string>, welcomePageId: Option<int>,
                             publicTitle: string, publicSubtitle: string)

  /** A row of `user_rooms`: the role a user holds in a room. */
  datatype Membership = Membership(userId: int, room: string, role: string)

  /** What the `Authorization: Bearer` header amounts to once the JWT is decoded. */
  datatype Credentials = NoCredentials | InvalidToken | Subject(userId: int)

  /** The first user with the given id (`select(User).filter(User.id == ...)`). */
  function FindUser(users: seq<UserRow>, id: int): (r: Option<UserRow>)
    ensures r.Some? ==> r.value in users && r.value.id == id
    ensures r.None? <==> forall k :: 0 <= k < |users| ==> users[k].id != id
  {
    if users == [] then None
    else if users[0].id == id then Some(users[0])
    else FindUser(users[1..], id)
  }

  /** The first user with the given email. */
  function FindEmail(users: seq<UserRow>, email: string): (r: Option<UserRow>)
    ensures r.Some? ==> r.value in users && r.value.email == email
    ensures r.None? <==> forall k :: 0 <= k < |users| ==> users[k].email != email
  {
    if users == [] then None
    else if users[0].email == email then Some(users[0])
    else FindEmail(users[1..], email)
  }

  /** With increasing ids, looking up a user's id finds that user. */
  lemma {:induction false} FindOrderedUser(users: seq<UserRow>, k: nat)
    requires UsersOrdered(users) && k < |users|
    ensures FindUser(users, users[k].id) == Some(users[k])
  {
    if k > 0 {
      FindOrderedUser(users[1..], k - 1);
    }
  }

  /** Appending a user does not change what an earlier lookup found. */
  lemma {:induction false} FindUserAppend(users: seq<UserRow>, u: UserRow, id: int)
    requires FindUser(users, id).Some?
    ensures FindUser(users + [u], id) == FindUser(users, id)
  {
    if users[0].id != id {
      assert (users + [u])[1..] == users[1..] + [u];
      FindUserAppend(users[1..], u, id);
    }
  }

  /** `get_current_user`: the caller, or the 401/403 it raises. */
  function CurrentUser(users: seq<UserRow>, cred: Credentials): (r: Result<UserRow>)
    ensures r.Ok? <==> cred.Subject? && FindUser(users, cred.userId).Some? && FindUser(users, cred.userId).value.isActive
    ensures r.Ok? ==> r.value in users && r.value.id == cred.userId && r.value.isActive
    ensures r.Err? ==> r.error.status == (if cred.Subject? && FindUser(users, cred.userId).Some? then 403 else 401)
  {
    match cred
    case NoCredentials => Err(HttpError(401, "Not authenticated"))
    case InvalidToken => Err(HttpError(401, "Invalid token"))
    case Subject(id) =>
      match FindUser(users, id)
      case None => Err(HttpError(401, "User not found"))
      case Some(u) => if u.isActive then Ok(u) else Err(HttpError(403, "User is inactive"))
  }

  /** `get_current_user_optional`: the caller, or `None` wherever the strict version raises. */
  function CurrentUserOptional(users: seq<UserRow>, cred: Credentials): (r: Option<UserRow>)
    ensures r.Some? ==> r.value in users && r.value.isActive && cred == Subject(r.value.id)
  {
    match cred
    case Subject(id) =>
      (match FindUser(users, id)
       case Some(u) => if u.isActive then Some(u) else None
       case None => None)
    case _ => None
  }

  /** The optional lookup finds a user exactly when the strict one lets the request through. */
  lemma OptionalAgrees(users: seq<UserRow>, cred: Credentials)
    ensures CurrentUserOptional(users, cred).Some? <==> CurrentUser(users, cred).Ok?
    ensures CurrentUser(users, cred).Ok? ==> CurrentUserOptional(users, cred) == Some(CurrentUser(users, cred).value)
  {
  }

  /** The role of `SELECT role FROM user_rooms WHERE user_id = :uid AND room_name = :rn`. */
  function RoleOf(ms: seq<Membership>, uid: int, room: string): (r: Option<string>)
    ensures r.Some? ==> Membership(uid, room, r.value) in ms
    ensures r.None? <==> forall k :: 0 <= k < |ms| ==> !(ms[k].userId == uid && ms[k].room == room)
  {
    if ms == [] then None
    else if ms[0].userId == uid && ms[0].room == room then Some(ms[0].role)
    else RoleOf(ms[1..], uid, room)
  }

  /** A room of the given name exists. */
  predicate HasRoom(rooms: seq<RoomRow>, name: string)
  {
    exists k :: 0 <= k < |rooms| && rooms[k].name == name
  }

  /** The position of the room of the given name. */
  function RoomIndex(rooms: seq<RoomRow>, name: string): (k: nat)
    requires HasRoom(rooms, name)
    ensures k < |rooms| && rooms[k].name == name
    ensures forall j :: 0 <= j < k ==> rooms[j].name != name
  {
    if rooms[0].name == name then 0
    else
      assert HasRoom(rooms[1..], name) by {
        var k :| 0 <= k < |rooms| && rooms[k].name == name;
        assert rooms[1..][k - 1] == rooms[k];
      }
      1 + RoomIndex(rooms[1..], name)
  }

  /** Some room already holds this public slug (the column is UNIQUE). */
  predicate SlugTaken(rooms: seq<RoomRow>, slug: string)
  {
    exists k :: 0 <= k < |rooms| && rooms[k].publicSlug == Some(slug)
  }

  /** `ORDER BY id` is the stored order: ids are handed out increasing. */
  predicate UsersOrdered(users: seq<UserRow>)
  {
    forall i, j :: 0 <= i < j < |users| ==> users[i].id < users[j].id
  }

  predicate EmailsUnique(users: seq<UserRow>)
  {
    forall i, j :: 0 <= i < j < |users| ==> users[i].email != users[j].email
  }

  /** `name` is the primary key of `wiki_rooms`. */
  predicate NamesUnique(rooms: seq<RoomRow>)
  {
    forall i, j :: 0 <= i < j < |rooms| ==> rooms[i].name != rooms[j].name
  }

  /** `public_slug` is UNIQUE; any number of rooms may have none. */
  predicate SlugsUnique(rooms: seq<RoomRow>)
  {
    forall i, j :: 0 <= i < j < |rooms| ==> rooms[i].publicSlug.None? || rooms[i].publicSlug != rooms[j].publicSlug
  }

  /** `(user_id, room_name)` is the primary key of `user_rooms`. */
  predicate KeysUnique(ms: seq<Membership>)
  {
    forall i, j :: 0 <= i < j < |ms| ==> !(ms[i].userId == ms[j].userId && ms[i].room == ms[j].room)
  }

  /** `user_id` references `users(id)`. */
  predicate MembersKnown(ms: seq<Membership>, users: seq<UserRow>)
  {
    forall k :: 0 <= k < |ms| ==> FindUser(users, ms[k].userId).Some?
  }

  /** The sort key of `ORDER BY name`: the name as a one-label key. */
  function NameKey(room: RoomRow): seq<string>
  {
    [room.name]
  }

  /** One-label keys compare as their labels do. */
  lemma NameKeyOrder(a: RoomRow, b: RoomRow)
    ensures LabelsLess(NameKey(a), NameKey(b)) <==> StrLess(a.name, b.name)
  {
    var x, y := NameKey(a), NameKey(b);
    if a.name == b.name {
      StrIrreflexive(a.name);
      LabelsIrreflexive(x[1..]);
    }
  }

  /** The table constraints, and ids below the sequence's next value. */
  ghost predicate TablesValid(users: seq<UserRow>, rooms: seq<RoomRow>, ms: seq<Membership>, nextUserId: int)
  {
    && UsersOrdered(users)
    && (forall k :: 0 <= k < |users| ==> users[k].id < nextUserId)
    && EmailsUnique(users)
    && NamesUnique(rooms)
    && SlugsUnique(rooms)
    && KeysUnique(ms)
    && MembersKnown(ms, users)
  }

  /** A new user with the next id and an unused email keeps the table constraints. */
  lemma AddUserKeepsValid(users: seq<UserRow>, rooms: seq<RoomRow>, ms: seq<Membership>, nextId: int, u: UserRow)
    requires TablesValid(users, rooms, ms, nextId)
    requires u.id == nextId && FindEmail(users, u.email).None?
    ensures TablesValid(users + [u], rooms, ms, nextId + 1)
  {
    forall k | 0 <= k < |ms| ensures FindUser(users + [u], ms[k].userId).Some? {
      FindUserAppend(users, u, ms[k].userId);
    }
  }

  /** A lookup by key finds the first row of `a + b` that matches. */
  lemma {:induction false} RoleOfAppend(a: seq<Membership>, b: seq<Membership>, uid: int, room: string)
    ensures RoleOf(a + b, uid, room) == if RoleOf(a, uid, room).Some? then RoleOf(a, uid, room) else RoleOf(b, uid, room)
  {
    if a == [] {
      assert a + b == b;
    } else {
      assert (a + b)[1..] == a[1..] + b;
      RoleOfAppend(a[1..], b, uid, room);
    }
  }

  /** The public schema's tables. */
  class Database {
    var users: seq<UserRow>
    var rooms: seq<RoomRow>
    var memberships: seq<Membership>
    /** The next value of the `users.id` sequence. */
    var nextUserId: int

    ghost predicate Valid()
      reads this
    {
      TablesValid(users, rooms, memberships, nextUserId)
    }

    /** Empty tables. */
    constructor ()
      ensures Valid()
      ensures users == [] && rooms == [] && memberships == [] && nextUserId == 1
    {
      users, rooms, memberships, nextUserId := [], [], [], 1;
    }
  }
}

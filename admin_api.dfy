/**
 * Room, user and membership administration
 * (backend/app/api/endpoints/admin.py) over the public schema's tables.
 * Every endpoint first authenticates the caller. A statement that violates
 * a table constraint fails the request with a server error; the transaction
 * is then never committed, so nothing changes. The fresh public slug
 * `str(uuid.uuid4())[:8]` is a parameter.
 */
module AdminApi {
  import opened Common
  import opened Text
  import opened UserSchema
  import opened Ordering
  import opened Accounts
  import opened PagesApi

  const SuperuserRequired: HttpError := HttpError(403, "Superuser required")


  predicate IsHexDigit(c: char)
  {
    '0' <= c <= '9' || 'a' <= c <= 'f'
  }

  /** The first eight characters of a canonical uuid4: lower-case hex digits. */
  predicate ShortUuid(s: string)
  {
    |s| == 8 && forall k :: 0 <= k < 8 ==> IsHexDigit(s[k])
  }

  // ── Rooms ──────────────────────────────────────────────────────────

  /** A room with a new name and slug, and its owner's new membership, keep the table constraints. */
  lemma AddRoomKeepsValid(users: seq<UserRow>, rooms: seq<RoomRow>, ms: seq<Membership>, nextId: int,
                          room: RoomRow, owner: Membership)
    requires TablesValid(users, rooms, ms, nextId)
    requires !HasRoom(rooms, room.name) && (room.publicSlug.None? || !SlugTaken(rooms, room.publicSlug.value))
    requires FindUser(users, owner.userId).Some? && RoleOf(ms, owner.userId, owner.room).None?
    ensures TablesValid(users, rooms + [room], ms + [owner], nextId)
  {
  }

  /**
   * `create_room`: any signed-in user may create a room; a taken name gives
   * 400. The room gets the fresh public slug and the creator becomes its
   * Owner. A stale membership row for the new name, or a slug collision,
   * breaks a key constraint. The name is also spliced into `CREATE SCHEMA
   * "<name>"`, and the empty name is a zero-length delimited identifier,
   * which PostgreSQL refuses: the transaction rolls back and the answer is 500.
   */
  method CreateRoom(db: Database, cred: Credentials, name: string, displayName: string, freshSlug: string)
    returns (r: Result<RoomRow>)
    requires db.Valid() && ShortUuid(freshSlug)
    modifies db
    ensures db.Valid()
    ensures CurrentUser(old(db.users), cred).Err? ==> r == Err(CurrentUser(old(db.users), cred).error)
    ensures CurrentUser(old(db.users), cred).Ok? && HasRoom(old(db.rooms), name) ==>
              r == Err(HttpError(400, "Room already exists"))
    ensures CurrentUser(old(db.users), cred).Ok? && !HasRoom(old(db.rooms), name) && name == "" ==>
              r == Err(ServerError)
    ensures r.Ok? <==> CurrentUser(old(db.users), cred).Ok? && !HasRoom(old(db.rooms), name)
                       && !SlugTaken(old(db.rooms), freshSlug) && name != ""
                       && RoleOf(old(db.memberships), CurrentUser(old(db.users), cred).value.id, name).None?
    ensures r.Ok? ==> r.value == RoomRow(name, displayName, Some(freshSlug), None, None, "", "")
                      && db.rooms == old(db.rooms) + [r.value]
                      && db.memberships == old(db.memberships)
                                           + [Membership(CurrentUser(old(db.users), cred).value.id, name, "Owner")]
                      && db.users == old(db.users) && db.nextUserId == old(db.nextUserId)
    ensures r.Err? ==> unchanged(db)
  {
    var caller := CurrentUser(db.users, cred);
    if caller.Err? {
      return Err(caller.error);
    }
    if HasRoom(db.rooms, name) {
      return Err(HttpError(400, "Room already exists"));
    }
    if SlugTaken(db.rooms, freshSlug) || RoleOf(db.memberships, caller.value.id, name).Some? || name == "" {
      return Err(ServerError);
    }
    var room := RoomRow(name, displayName, Some(freshSlug), None, None, "", "");
    var owner := Membership(caller.value.id, name, "Owner");
    AddRoomKeepsValid(db.users, db.rooms, db.memberships, db.nextUserId, room, owner);
    db.rooms := db.rooms + [room];
    db.memberships := db.memberships + [owner];
    r := Ok(room);
  }

  /** The body of `PUT /admin/rooms/{name}`: a field left `None` is not touched. */
  datatype RoomUpdate = RoomUpdate(displayName: Option<string>, welcomePageId: Option<int>,
                                   publicTitle: Option<string>, publicSubtitle: Option<string>)

  /** The room after `update_room`'s UPDATE statements. */
  function Patch(room: RoomRow, upd: RoomUpdate): (r: RoomRow)
    ensures r.name == room.name && r.publicSlug == room.publicSlug && r.logoUrl == room.logoUrl
    ensures r.displayName == (if upd.displayName.Some? then upd.displayName.value else room.displayName)
    ensures upd.welcomePageId.None? ==> r.welcomePageId == room.welcomePageId
    ensures upd.welcomePageId.Some? && upd.welcomePageId.value > 0 ==> r.welcomePageId == upd.welcomePageId
    ensures upd.welcomePageId.Some? && upd.welcomePageId.value <= 0 ==> r.welcomePageId.None?
    ensures r.publicTitle == (if upd.publicTitle.Some? then upd.publicTitle.value else room.publicTitle)
    ensures r.publicSubtitle == (if upd.publicSubtitle.Some? then upd.publicSubtitle.value else room.publicSubtitle)
  {
    room.(displayName := if upd.displayName.Some? then upd.displayName.value else room.displayName,
          welcomePageId := match upd.welcomePageId
                           case None => room.welcomePageId
                           case Some(w) => if w > 0 then Some(w) else None,
          publicTitle := if upd.publicTitle.Some? then upd.publicTitle.value else room.publicTitle,
          publicSubtitle := if upd.publicSubtitle.Some? then upd.publicSubtitle.value else room.publicSubtitle)
  }

  /** Sending the same update twice is the same as sending it once; an empty update changes nothing. */
  lemma PatchIdempotent(room: RoomRow, upd: RoomUpdate)
    ensures Patch(Patch(room, upd), upd) == Patch(room, upd)
    ensures Patch(room, RoomUpdate(None, None, None, None)) == room
  {
  }

  /** Replacing a room by one with the same name, and a slug of its own or none, keeps the table constraints. */
  lemma ReplaceRoom(users: seq<UserRow>, rooms: seq<RoomRow>, ms: seq<Membership>, nextId: int, k: nat, x: RoomRow)
    requires TablesValid(users, rooms, ms, nextId) && k < |rooms|
    requires x.name == rooms[k].name
    requires x.publicSlug.None? || x.publicSlug == rooms[k].publicSlug || !SlugTaken(rooms, x.publicSlug.value)
    ensures TablesValid(users, rooms[k := x], ms, nextId)
  {
  }

  /** `update_room`: superusers only (403), 404 for an unknown room, then `Patch`. */
  method UpdateRoom(db: Database, cred: Credentials, name: string, upd: RoomUpdate)
    returns (r: Result<RoomRow>)
    requires db.Valid()
    modifies db
    ensures db.Valid()
    ensures CurrentUser(old(db.users), cred).Err? ==> r == Err(CurrentUser(old(db.users), cred).error)
    ensures CurrentUser(old(db.users), cred).Ok? && !CurrentUser(old(db.users), cred).value.isSuperuser ==>
              r == Err(SuperuserRequired)
    ensures CurrentUser(old(db.users), cred).Ok? && CurrentUser(old(db.users), cred).value.isSuperuser
            && !HasRoom(old(db.rooms), name) ==>
              r == Err(HttpError(404, "Room not found"))
    ensures r.Ok? <==> CurrentUser(old(db.users), cred).Ok? && CurrentUser(old(db.users), cred).value.isSuperuser
                       && HasRoom(old(db.rooms), name)
    ensures r.Ok? ==> HasRoom(old(db.rooms), name)
                      && var k := RoomIndex(old(db.rooms), name);
                         r.value == Patch(old(db.rooms)[k], upd) && db.rooms == old(db.rooms)[k := r.value]
    ensures db.users == old(db.users) && db.memberships == old(db.memberships) && db.nextUserId == old(db.nextUserId)
    ensures r.Err? ==> unchanged(db)
  {
    var caller := CurrentUser(db.users, cred);
    if caller.Err? {
      return Err(caller.error);
    }
    if !caller.value.isSuperuser {
      return Err(SuperuserRequired);
    }
    if !HasRoom(db.rooms, name) {
      return Err(HttpError(404, "Room not found"));
    }
    var k := RoomIndex(db.rooms, name);
    var room := Patch(db.rooms[k], upd);
    ReplaceRoom(db.users, db.rooms, db.memberships, db.nextUserId, k, room);
    db.rooms := db.rooms[k := room];
    r := Ok(room);
  }

  /** The rooms a `DELETE ... WHERE name = :n` leaves. */
  function RoomsExcept(rooms: seq<RoomRow>, name: string): seq<RoomRow>
  {
    Filter(rooms, (x: RoomRow) => x.name != name)
  }

  /** The memberships a `DELETE ... WHERE room_name = :rn` leaves. */
  function MembersExceptRoom(ms: seq<Membership>, name: string): seq<Membership>
  {
    Filter(ms, (m: Membership) => m.room != name)
  }

  /** The memberships a `DELETE ... WHERE user_id = :uid` leaves. */
  function MembersExceptUser(ms: seq<Membership>, uid: int): seq<Membership>
  {
    Filter(ms, (m: Membership) => m.userId != uid)
  }

  /** Dropping a room's memberships leaves every role in every other room as it was. */
  lemma {:induction false} OtherRoomsKeepRoles(ms: seq<Membership>, name: string, uid: int, room: string)
    requires room != name
    ensures RoleOf(MembersExceptRoom(ms, name), uid, room) == RoleOf(ms, uid, room)
    ensures RoleOf(MembersExceptRoom(ms, name), uid, name).None?
  {
    if ms != [] {
      OtherRoomsKeepRoles(ms[1..], name, uid, room);
      if ms[0].room != name {
        assert MembersExceptRoom(ms, name) == [ms[0]] + MembersExceptRoom(ms[1..], name);
      } else {
        assert MembersExceptRoom(ms, name) == MembersExceptRoom(ms[1..], name);
      }
    }
  }

  /** Dropping a user's memberships leaves every other user's roles as they were. */
  lemma {:induction false} OtherUsersKeepRoles(ms: seq<Membership>, uid: int, other: int, room: string)
    requires other != uid
    ensures RoleOf(MembersExceptUser(ms, uid), other, room) == RoleOf(ms, other, room)
    ensures RoleOf(MembersExceptUser(ms, uid), uid, room).None?
  {
    if ms != [] {
      OtherUsersKeepRoles(ms[1..], uid, other, room);
      if ms[0].userId != uid {
        assert MembersExceptUser(ms, uid) == [ms[0]] + MembersExceptUser(ms[1..], uid);
      } else {
        assert MembersExceptUser(ms, uid) == MembersExceptUser(ms[1..], uid);
      }
    }
  }

  /** Rows taken from a table whose users all exist still name existing users. */
  lemma SubsetMembersKnown(sub: seq<Membership>, ms: seq<Membership>, users: seq<UserRow>)
    requires MembersKnown(ms, users)
    requires forall k :: 0 <= k < |sub| ==> sub[k] in ms
    ensures MembersKnown(sub, users)
  {
    forall k | 0 <= k < |sub| ensures FindUser(users, sub[k].userId).Some? {
      var j :| 0 <= j < |ms| && ms[j] == sub[k];
    }
  }

  /** Removing a room and its memberships keeps the table constraints. */
  lemma DropRoomKeepsValid(users: seq<UserRow>, rooms: seq<RoomRow>, ms: seq<Membership>, nextId: int, name: string)
    requires TablesValid(users, rooms, ms, nextId)
    ensures TablesValid(users, RoomsExcept(rooms, name), MembersExceptRoom(ms, name), nextId)
    ensures !HasRoom(RoomsExcept(rooms, name), name)
  {
    FilterPairs(rooms, (x: RoomRow) => x.name != name, (a: RoomRow, b: RoomRow) => a.name != b.name);
    FilterPairs(rooms, (x: RoomRow) => x.name != name,
                (a: RoomRow, b: RoomRow) => a.publicSlug.None? || a.publicSlug != b.publicSlug);
    FilterPairs(ms, (m: Membership) => m.room != name,
                (a: Membership, b: Membership) => !(a.userId == b.userId && a.room == b.room));
    SubsetMembersKnown(MembersExceptRoom(ms, name), ms, users);
  }

  /** Who may delete a room: a superuser, or whoever holds Owner in it. */
  predicate MayDeleteRoom(u: UserRow, ms: seq<Membership>, name: string)
  {
    u.isSuperuser || RoleOf(ms, u.id, name) == Some("Owner")
  }

  /** The name of the schema that holds the shared tables. */
  const PublicSchema := "public"

  /** The tables of the public schema, as a value. */
  datatype Tables = Tables(users: seq<UserRow>, rooms: seq<RoomRow>, memberships: seq<Membership>)

  /**
   * The public schema once `delete_room` as written commits for `name`:
   * `None` when its `DROP SCHEMA IF EXISTS "<name>" CASCADE` removed the
   * public schema itself, with every table in it.
   */
  function DeletedAsWritten(t: Tables, name: string): Option<Tables>
  {
    if name == PublicSchema then None
    else Some(Tables(t.users, RoomsExcept(t.rooms, name), MembersExceptRoom(t.memberships, name)))
  }

  /**
   * As written, deleting a room named "public" drops the shared tables, so
   * every user account is lost; deleting any other room keeps them.
   */
  lemma PublicRoomDeletionDropsUsers(t: Tables, name: string)
    ensures DeletedAsWritten(t, PublicSchema).None?
    ensures name != PublicSchema ==> DeletedAsWritten(t, name).Some? && DeletedAsWritten(t, name).value.users == t.users
  {
  }

  /**
   * `delete_room`: a superuser or the room's Owner, else 403. There is no
   * 404: deleting an unknown room succeeds. The room and every membership
   * in it are removed. The empty name makes the spliced `DROP SCHEMA ""`
   * fail, so that request answers 500 and changes nothing. A room named
   * "public" keeps the shared tables here (see `DeletedAsWritten` for what
   * the endpoint does instead).
   */
  method DeleteRoom(db: Database, cred: Credentials, name: string) returns (r: Result<()>)
    requires db.Valid()
    modifies db
    ensures db.Valid()
    ensures CurrentUser(old(db.users), cred).Err? ==> r == Err(CurrentUser(old(db.users), cred).error)
    ensures CurrentUser(old(db.users), cred).Ok? && !MayDeleteRoom(CurrentUser(old(db.users), cred).value, old(db.memberships), name) ==>
              r == Err(HttpError(403, "Only Owner can delete room"))
    ensures (CurrentUser(old(db.users), cred).Ok? && name == ""
             && MayDeleteRoom(CurrentUser(old(db.users), cred).value, old(db.memberships), name)) ==>
              r == Err(ServerError)
    ensures r.Ok? <==> CurrentUser(old(db.users), cred).Ok?
                       && MayDeleteRoom(CurrentUser(old(db.users), cred).value, old(db.memberships), name)
                       && name != ""
    ensures r.Ok? ==> db.rooms == RoomsExcept(old(db.rooms), name)
                      && db.memberships == MembersExceptRoom(old(db.memberships), name)
                      && !HasRoom(db.rooms, name)
    ensures db.users == old(db.users) && db.nextUserId == old(db.nextUserId)
    ensures r.Err? ==> unchanged(db)
  {
    var caller := CurrentUser(db.users, cred);
    if caller.Err? {
      return Err(caller.error);
    }
    if !MayDeleteRoom(caller.value, db.memberships, name) {
      return Err(HttpError(403, "Only Owner can delete room"));
    }
    if name == "" {
      return Err(ServerError);
    }
    var rooms := RoomsExcept(db.rooms, name);
    var ms := MembersExceptRoom(db.memberships, name);
    DropRoomKeepsValid(db.users, db.rooms, db.memberships, db.nextUserId, name);
    db.rooms := rooms;
    db.memberships := ms;
    r := Ok(());
  }

  /**
   * `toggle_public_link`: any signed-in user; 404 for an unknown room. A
   * set slug is cleared; an unset or empty one is replaced by the fresh
   * slug, which a collision with another room's slug rejects.
   */
  method TogglePublicLink(db: Database, cred: Credentials, name: string, freshSlug: string)
    returns (r: Result<Option<string>>)
    requires db.Valid() && ShortUuid(freshSlug)
    modifies db
    ensures db.Valid()
    ensures CurrentUser(old(db.users), cred).Err? ==> r == Err(CurrentUser(old(db.users), cred).error)
    ensures CurrentUser(old(db.users), cred).Ok? && !HasRoom(old(db.rooms), name) ==>
              r == Err(HttpError(404, "Room not found"))
    ensures r.Ok? <==> CurrentUser(old(db.users), cred).Ok? && HasRoom(old(db.rooms), name)
                       && (Truthy(old(db.rooms)[RoomIndex(old(db.rooms), name)].publicSlug)
                           || !SlugTaken(old(db.rooms), freshSlug))
    ensures r.Ok? ==> HasRoom(old(db.rooms), name)
                      && var k := RoomIndex(old(db.rooms), name);
                         && db.rooms == old(db.rooms)[k := old(db.rooms)[k].(publicSlug := r.value)]
                         && r.value == (if Truthy(old(db.rooms)[k].publicSlug) then None else Some(freshSlug))
                         && Truthy(r.value) == !Truthy(old(db.rooms)[k].publicSlug)
    ensures db.users == old(db.users) && db.memberships == old(db.memberships) && db.nextUserId == old(db.nextUserId)
    ensures r.Err? ==> unchanged(db)
  {
    var caller := CurrentUser(db.users, cred);
    if caller.Err? {
      return Err(caller.error);
    }
    if !HasRoom(db.rooms, name) {
      return Err(HttpError(404, "Room not found"));
    }
    var k := RoomIndex(db.rooms, name);
    var slug: Option<string>;
    if Truthy(db.rooms[k].publicSlug) {
      slug := None;
    } else {
      if SlugTaken(db.rooms, freshSlug) {
        return Err(ServerError);
      }
      slug := Some(freshSlug);
    }
    ReplaceRoom(db.users, db.rooms, db.memberships, db.nextUserId, k, db.rooms[k].(publicSlug := slug));
    db.rooms := db.rooms[k := db.rooms[k].(publicSlug := slug)];
    r := Ok(slug);
  }

  // ── Users ──────────────────────────────────────────────────────────

  /** One `{"room", "role"}` entry of a user in `users_with_rooms`. */
  datatype RoomGrant = RoomGrant(room: string, role: string)

  /** One user in `users_with_rooms`. */
  datatype UserEntry = UserEntry(id: int, email: string, isActive: bool, isSuperuser: bool, rooms: seq<RoomGrant>)

  /** A user's memberships in table order, as `setdefault(...).append(...)` collects them. */
  function GrantsOf(ms: seq<Membership>, uid: int): seq<RoomGrant>
  {
    if ms == [] then []
    else
      var m := ms[|ms| - 1];
      GrantsOf(ms[..|ms| - 1], uid) + (if m.userId == uid then [RoomGrant(m.room, m.role)] else [])
  }

  /** A user's entries are exactly their membership rows. */
  lemma {:induction false} GrantsOfIff(ms: seq<Membership>, uid: int, g: RoomGrant)
    ensures g in GrantsOf(ms, uid) <==> Membership(uid, g.room, g.role) in ms
  {
    if ms != [] {
      var init := ms[..|ms| - 1];
      GrantsOfIff(init, uid, g);
      assert ms == init + [ms[|ms| - 1]];
    }
  }

  /** Collecting one more membership row extends only its own user's entries. */
  lemma GrantsStep(ms: seq<Membership>, k: nat, uid: int)
    requires k < |ms|
    ensures GrantsOf(ms[..k + 1], uid)
            == GrantsOf(ms[..k], uid) + (if ms[k].userId == uid then [RoomGrant(ms[k].room, ms[k].role)] else [])
  {
    assert ms[..k + 1][..k] == ms[..k];
  }

  /** A user's entries so far; `setdefault` starts a user at none. */
  function Lookup(byUser: map<int, seq<RoomGrant>>, uid: int): seq<RoomGrant>
  {
    if uid in byUser then byUser[uid] else []
  }

  /** Each user's entries in `byUser` are their membership rows in `ms`. */
  ghost predicate Grouped(byUser: map<int, seq<RoomGrant>>, ms: seq<Membership>)
  {
    forall uid :: Lookup(byUser, uid) == GrantsOf(ms, uid)
  }

  /** The first loop of `users_with_rooms`: every membership row, grouped by user in table order. */
  method GroupByUser(ms: seq<Membership>) returns (byUser: map<int, seq<RoomGrant>>)
    ensures Grouped(byUser, ms)
  {
    byUser := map[];
    var k := 0;
    while k < |ms|
      invariant 0 <= k <= |ms|
      invariant forall uid :: Lookup(byUser, uid) == GrantsOf(ms[..k], uid)
    {
      var m := ms[k];
      byUser := byUser[m.userId := Lookup(byUser, m.userId) + [RoomGrant(m.room, m.role)]];
      forall uid ensures Lookup(byUser, uid) == GrantsOf(ms[..k + 1], uid) {
        GrantsStep(ms, k, uid);
      }
      k := k + 1;
    }
    assert ms[..|ms|] == ms;
  }

  lemma GroupedLookup(byUser: map<int, seq<RoomGrant>>, ms: seq<Membership>, uid: int)
    requires Grouped(byUser, ms)
    ensures Lookup(byUser, uid) == GrantsOf(ms, uid)
  {
  }

  /** The entry `users_with_rooms` lists for one user. */
  function EntryOf(u: UserRow, ms: seq<Membership>): UserEntry
  {
    UserEntry(u.id, u.email, u.isActive, u.isSuperuser, GrantsOf(ms, u.id))
  }

  /**
   * `users_with_rooms`: every user in id order with their memberships. Any
   * signed-in user may ask; no role is checked.
   */
  method UsersWithRooms(db: Database, cred: Credentials) returns (r: Result<seq<UserEntry>>)
    ensures CurrentUser(db.users, cred).Err? ==> r == Err(CurrentUser(db.users, cred).error)
    ensures r.Ok? <==> CurrentUser(db.users, cred).Ok?
    ensures r.Ok? ==> |r.value| == |db.users|
                      && forall i :: 0 <= i < |db.users| ==> r.value[i] == EntryOf(db.users[i], db.memberships)
  {
    var caller := CurrentUser(db.users, cred);
    if caller.Err? {
      return Err(caller.error);
    }
    var ms := db.memberships;
    var byUser := GroupByUser(ms);
    var users := db.users;
    var entries: seq<UserEntry> := [];
    var i := 0;
    while i < |users|
      invariant 0 <= i <= |users|
      invariant |entries| == i
      invariant forall j :: 0 <= j < i ==> entries[j] == EntryOf(users[j], ms)
    {
      var u := users[i];
      var grants := Lookup(byUser, u.id);
      GroupedLookup(byUser, ms, u.id);
      var entry := UserEntry(u.id, u.email, u.isActive, u.isSuperuser, grants);
      entries := entries + [entry];
      i := i + 1;
    }
    r := Ok(entries);
  }

  /**
   * `create_user`'s answer: superusers only; the email is lower-cased and
   * stripped but not checked against the login pattern; a taken email gives
   * 400. The account is active and never a superuser.
   */
  function CreateUserCheck(users: seq<UserRow>, nextId: int, cred: Credentials, email: string, passwordHash: string)
    : (r: Result<UserRow>)
    ensures CurrentUser(users, cred).Err? ==> r == Err(CurrentUser(users, cred).error)
    ensures CurrentUser(users, cred).Ok? && !CurrentUser(users, cred).value.isSuperuser ==> r == Err(SuperuserRequired)
    ensures CurrentUser(users, cred).Ok? && CurrentUser(users, cred).value.isSuperuser
            && FindEmail(users, NormalizeEmail(email)).Some? ==>
              r == Err(HttpError(400, "Email already registered"))
    ensures r.Ok? <==> CurrentUser(users, cred).Ok? && CurrentUser(users, cred).value.isSuperuser
                       && FindEmail(users, NormalizeEmail(email)).None?
    ensures r.Ok? ==> r.value == UserRow(nextId, NormalizeEmail(email), passwordHash, true, false)
  {
    match CurrentUser(users, cred)
    case Err(e) => Err(e)
    case Ok(caller) =>
      if !caller.isSuperuser then Err(SuperuserRequired)
      else if FindEmail(users, NormalizeEmail(email)).Some? then Err(HttpError(400, "Email already registered"))
      else Ok(UserRow(nextId, NormalizeEmail(email), passwordHash, true, false))
  }

  /** `create_user`: the answer of `CreateUserCheck`, and on success the new row appended. */
  method CreateUser(db: Database, cred: Credentials, email: string, password: string, hash: string -> string)
    returns (r: Result<UserRow>)
    requires db.Valid()
    modifies db
    ensures db.Valid()
    ensures r == CreateUserCheck(old(db.users), old(db.nextUserId), cred, email, hash(password))
    ensures r.Ok? ==> db.users == old(db.users) + [r.value] && db.nextUserId == old(db.nextUserId) + 1
    ensures db.rooms == old(db.rooms) && db.memberships == old(db.memberships)
    ensures r.Err? ==> unchanged(db)
  {
    r := CreateUserCheck(db.users, db.nextUserId, cred, email, hash(password));
    if r.Err? {
      return;
    }
    AddUserKeepsValid(db.users, db.rooms, db.memberships, db.nextUserId, r.value);
    db.users := db.users + [r.value];
    db.nextUserId := db.nextUserId + 1;
  }

  /** The users a `DELETE ... WHERE id = :uid` leaves. */
  function UsersExcept(users: seq<UserRow>, uid: int): seq<UserRow>
  {
    Filter(users, (u: UserRow) => u.id != uid)
  }

  /** Removing a user and their memberships keeps every remaining membership's user. */
  lemma KeptMembersKnown(ms: seq<Membership>, users: seq<UserRow>, uid: int)
    requires MembersKnown(ms, users)
    ensures MembersKnown(MembersExceptUser(ms, uid), UsersExcept(users, uid))
    ensures FindUser(UsersExcept(users, uid), uid).None?
  {
    var kept := MembersExceptUser(ms, uid);
    var left := UsersExcept(users, uid);
    forall k | 0 <= k < |kept| ensures FindUser(left, kept[k].userId).Some? {
      var j :| 0 <= j < |ms| && ms[j] == kept[k];
      var u := FindUser(users, kept[k].userId).value;
      var i :| 0 <= i < |users| && users[i] == u;
      assert users[i] in left;
      var l :| 0 <= l < |left| && left[l] == u;
    }
  }

  /** Removing a user and their memberships keeps the user and membership constraints. */
  lemma DropUserKeepsValid(users: seq<UserRow>, rooms: seq<RoomRow>, ms: seq<Membership>, nextId: int, uid: int)
    requires TablesValid(users, rooms, ms, nextId)
    ensures TablesValid(UsersExcept(users, uid), rooms, MembersExceptUser(ms, uid), nextId)
    ensures FindUser(UsersExcept(users, uid), uid).None?
  {
    var left := UsersExcept(users, uid);
    FilterPairs(users, (u: UserRow) => u.id != uid, (a: UserRow, b: UserRow) => a.id < b.id);
    FilterPairs(users, (u: UserRow) => u.id != uid, (a: UserRow, b: UserRow) => a.email != b.email);
    FilterPairs(ms, (m: Membership) => m.userId != uid,
                (a: Membership, b: Membership) => !(a.userId == b.userId && a.room == b.room));
    KeptMembersKnown(ms, users, uid);
    forall k | 0 <= k < |left| ensures left[k].id < nextId {
      var j :| 0 <= j < |users| && users[j] == left[k];
    }
  }

  /**
   * The checks `delete_user` makes before deleting, in order: the caller
   * (401/403), superuser (403), not oneself (400), an existing user (404).
   */
  function DeleteUserCheck(users: seq<UserRow>, cred: Credentials, uid: int): (r: Result<()>)
    ensures CurrentUser(users, cred).Err? ==> r == Err(CurrentUser(users, cred).error)
    ensures CurrentUser(users, cred).Ok? && !CurrentUser(users, cred).value.isSuperuser ==>
              r == Err(SuperuserRequired)
    ensures CurrentUser(users, cred).Ok? && CurrentUser(users, cred).value.isSuperuser
            && uid == CurrentUser(users, cred).value.id ==>
              r == Err(HttpError(400, "Cannot delete yourself"))
    ensures CurrentUser(users, cred).Ok? && CurrentUser(users, cred).value.isSuperuser
            && uid != CurrentUser(users, cred).value.id && FindUser(users, uid).None? ==>
              r == Err(HttpError(404, "User not found"))
    ensures r.Ok? ==> cred.Subject? && cred.userId != uid && FindUser(users, uid).Some?
                      && CurrentUser(users, cred).Ok? && CurrentUser(users, cred).value.isSuperuser
  {
    match CurrentUser(users, cred)
    case Err(e) => Err(e)
    case Ok(caller) =>
      if !caller.isSuperuser then Err(SuperuserRequired)
      else if uid == caller.id then Err(HttpError(400, "Cannot delete yourself"))
      else if FindUser(users, uid).None? then Err(HttpError(404, "User not found"))
      else Ok(())
  }

  /**
   * `delete_user`: after `DeleteUserCheck`, the user and all their
   * memberships are removed.
   */
  method DeleteUser(db: Database, cred: Credentials, uid: int) returns (r: Result<()>)
    requires db.Valid()
    modifies db
    ensures db.Valid()
    ensures r == DeleteUserCheck(old(db.users), cred, uid)
    ensures r.Ok? ==> db.users == UsersExcept(old(db.users), uid)
                      && db.memberships == MembersExceptUser(old(db.memberships), uid)
                      && FindUser(db.users, uid).None?
    ensures db.rooms == old(db.rooms) && db.nextUserId == old(db.nextUserId)
    ensures r.Err? ==> unchanged(db)
  {
    r := DeleteUserCheck(db.users, cred, uid);
    if r.Err? {
      return;
    }
    var users := UsersExcept(db.users, uid);
    var ms := MembersExceptUser(db.memberships, uid);
    DropUserKeepsValid(db.users, db.rooms, db.memberships, db.nextUserId, uid);
    db.users := users;
    db.memberships := ms;
  }

  /** One entry of the body of `PUT /admin/users/{id}/rooms`: `room` and `role` may be missing. */
  datatype RoomItem = RoomItem(room: Option<string>, role: Option<string>)

  /** `item.get("role", "Viewer")`, with anything but the four roles read as Viewer. */
  function GrantedRole(role: Option<string>): (r: string)
    ensures KnownRole(r)
    ensures role.Some? && KnownRole(role.value) ==> r == role.value
    ensures !(role.Some? && KnownRole(role.value)) ==> r == "Viewer"
  {
    if role.Some? && KnownRole(role.value) then role.value else "Viewer"
  }

  /** Every entry names a room; `item["room"]` raises otherwise. */
  predicate ItemsNamed(items: seq<RoomItem>)
  {
    forall k :: 0 <= k < |items| ==> items[k].room.Some?
  }

  /**
   * The rows `update_user_rooms` inserts, in order: one per entry, unless
   * an earlier entry already inserted that room (ON CONFLICT DO NOTHING).
   */
  function Assigned(uid: int, items: seq<RoomItem>): (r: seq<Membership>)
    requires ItemsNamed(items)
    ensures forall k :: 0 <= k < |r| ==> r[k].userId == uid && KnownRole(r[k].role)
    ensures KeysUnique(r)
  {
    if items == [] then []
    else
      var prev := Assigned(uid, items[..|items| - 1]);
      var it := items[|items| - 1];
      if RoleOf(prev, uid, it.room.value).Some? then prev
      else prev + [Membership(uid, it.room.value, GrantedRole(it.role))]
  }

  /** A user ends up in exactly the rooms the entries name. */
  lemma {:induction false} AssignedRooms(uid: int, items: seq<RoomItem>, room: string)
    requires ItemsNamed(items)
    ensures RoleOf(Assigned(uid, items), uid, room).Some? <==>
              exists k :: 0 <= k < |items| && items[k].room == Some(room)
  {
    if items != [] {
      var init := items[..|items| - 1];
      var it := items[|items| - 1];
      AssignedRooms(uid, init, room);
      var prev := Assigned(uid, init);
      if RoleOf(prev, uid, it.room.value).None? {
        RoleOfAppend(prev, [Membership(uid, it.room.value, GrantedRole(it.role))], uid, room);
      }
      assert forall k :: 0 <= k < |init| ==> init[k] == items[k];
    }
  }

  /** For a room named more than once, the first entry's role is the one stored. */
  lemma {:induction false} AssignedFirstWins(uid: int, items: seq<RoomItem>, k: nat)
    requires ItemsNamed(items) && k < |items|
    requires forall j :: 0 <= j < k ==> items[j].room != items[k].room
    ensures RoleOf(Assigned(uid, items), uid, items[k].room.value) == Some(GrantedRole(items[k].role))
  {
    var init := items[..|items| - 1];
    var it := items[|items| - 1];
    var prev := Assigned(uid, init);
    var room := items[k].room.value;
    if k == |items| - 1 {
      AssignedRooms(uid, init, room);
      RoleOfAppend(prev, [Membership(uid, room, GrantedRole(it.role))], uid, room);
    } else {
      assert init[k] == items[k];
      AssignedFirstWins(uid, init, k);
      if RoleOf(prev, uid, it.room.value).None? {
        RoleOfAppend(prev, [Membership(uid, it.room.value, GrantedRole(it.role))], uid, room);
      }
    }
  }

  /** Appending rows of one user to rows without that user keeps `(user_id, room_name)` unique. */
  lemma AppendKeysUnique(base: seq<Membership>, added: seq<Membership>, uid: int)
    requires KeysUnique(base) && KeysUnique(added)
    requires forall k :: 0 <= k < |base| ==> base[k].userId != uid
    requires forall k :: 0 <= k < |added| ==> added[k].userId == uid
    ensures KeysUnique(base + added)
  {
    var next := base + added;
    forall i, j | 0 <= i < j < |next| ensures !(next[i].userId == next[j].userId && next[i].room == next[j].room) {
      if j < |base| {
        assert next[i] == base[i] && next[j] == base[j];
      } else if i < |base| {
        assert next[i] == base[i] && next[j] == added[j - |base|];
      } else {
        assert next[i] == added[i - |base|] && next[j] == added[j - |base|];
      }
    }
  }

  /** Appending rows of an existing user to rows of existing users keeps every row's user known. */
  lemma AppendMembersKnown(base: seq<Membership>, added: seq<Membership>, users: seq<UserRow>, uid: int)
    requires MembersKnown(base, users)
    requires forall k :: 0 <= k < |added| ==> added[k].userId == uid
    requires FindUser(users, uid).Some? || added == []
    ensures MembersKnown(base + added, users)
  {
    var next := base + added;
    forall k | 0 <= k < |next| ensures FindUser(users, next[k].userId).Some? {
      if k < |base| { assert next[k] == base[k]; } else { assert next[k] == added[k - |base|]; }
    }
  }

  /** The memberships after a reassignment keep the key and user constraints. */
  lemma ReassignKeepsValid(users: seq<UserRow>, rooms: seq<RoomRow>, ms: seq<Membership>, nextId: int,
                           uid: int, items: seq<RoomItem>)
    requires TablesValid(users, rooms, ms, nextId) && ItemsNamed(items)
    requires FindUser(users, uid).Some? || items == []
    ensures TablesValid(users, rooms, MembersExceptUser(ms, uid) + Assigned(uid, items), nextId)
  {
    var base := MembersExceptUser(ms, uid);
    var added := Assigned(uid, items);
    FilterPairs(ms, (m: Membership) => m.userId != uid,
                (a: Membership, b: Membership) => !(a.userId == b.userId && a.room == b.room));
    SubsetMembersKnown(base, ms, users);
    AppendKeysUnique(base, added, uid);
    assert items == [] ==> added == [];
    AppendMembersKnown(base, added, users, uid);
  }

  /**
   * The INSERT loop of `update_user_rooms`, after the user's rows are gone:
   * an entry whose room the user already holds inserts nothing.
   */
  method InsertGrants(base: seq<Membership>, uid: int, items: seq<RoomItem>) returns (ms: seq<Membership>)
    requires ItemsNamed(items)
    requires forall k :: 0 <= k < |base| ==> base[k].userId != uid
    ensures ms == base + Assigned(uid, items)
  {
    ms := base;
    var k := 0;
    while k < |items|
      invariant 0 <= k <= |items|
      invariant ms == base + Assigned(uid, items[..k])
    {
      var room := items[k].room.value;
      RoleOfAppend(base, Assigned(uid, items[..k]), uid, room);
      assert items[..k + 1][..k] == items[..k];
      if RoleOf(ms, uid, room).None? {
        ms := ms + [Membership(uid, room, GrantedRole(items[k].role))];
      }
      k := k + 1;
    }
    assert items[..|items|] == items;
  }

  /**
   * `update_user_rooms`: superusers only. The user's memberships are
   * replaced by `Assigned`. An entry without a room, or any entry for a
   * user id not in `users` (the foreign key), fails the request and the
   * deletion is rolled back.
   */
  method UpdateUserRooms(db: Database, cred: Credentials, uid: int, items: seq<RoomItem>)
    returns (r: Result<()>)
    requires db.Valid()
    modifies db
    ensures db.Valid()
    ensures CurrentUser(old(db.users), cred).Err? ==> r == Err(CurrentUser(old(db.users), cred).error)
    ensures CurrentUser(old(db.users), cred).Ok? && !CurrentUser(old(db.users), cred).value.isSuperuser ==>
              r == Err(SuperuserRequired)
    ensures CurrentUser(old(db.users), cred).Ok? && CurrentUser(old(db.users), cred).value.isSuperuser
            && (!ItemsNamed(items) || (FindUser(old(db.users), uid).None? && items != [])) ==>
              r == Err(ServerError)
    ensures r.Ok? <==> CurrentUser(old(db.users), cred).Ok? && CurrentUser(old(db.users), cred).value.isSuperuser
                       && ItemsNamed(items) && (FindUser(old(db.users), uid).Some? || items == [])
    ensures r.Ok? ==> ItemsNamed(items)
                      && db.memberships == MembersExceptUser(old(db.memberships), uid) + Assigned(uid, items)
    ensures db.users == old(db.users) && db.rooms == old(db.rooms) && db.nextUserId == old(db.nextUserId)
    ensures r.Err? ==> unchanged(db)
  {
    var caller := CurrentUser(db.users, cred);
    if caller.Err? {
      return Err(caller.error);
    }
    if !caller.value.isSuperuser {
      return Err(SuperuserRequired);
    }
    if !ItemsNamed(items) || (FindUser(db.users, uid).None? && items != []) {
      return Err(ServerError);
    }
    var before := db.memberships;
    ReassignKeepsValid(db.users, db.rooms, before, db.nextUserId, uid, items);
    var ms := InsertGrants(MembersExceptUser(before, uid), uid, items);
    db.memberships := ms;
    r := Ok(());
  }

  // ── My rooms ───────────────────────────────────────────────────────

  /** Superusers and holders of an `__all__` membership see every room. */
  predicate SeesAllRooms(u: UserRow, ms: seq<Membership>)
  {
    u.isSuperuser || RoleOf(ms, u.id, "__all__").Some?
  }

  /** The rooms the join with the user's memberships yields. */
  function JoinedRooms(rooms: seq<RoomRow>, ms: seq<Membership>, uid: int): seq<RoomRow>
  {
    Filter(rooms, (x: RoomRow) => RoleOf(ms, uid, x.name).Some?)
  }

  /** `my_rooms`: the rooms the caller may pick, sorted by name. */
  function MyRooms(users: seq<UserRow>, rooms: seq<RoomRow>, ms: seq<Membership>, cred: Credentials)
    : (r: Result<seq<RoomRow>>)
    ensures CurrentUser(users, cred).Err? ==> r == Err(CurrentUser(users, cred).error)
    ensures r.Ok? <==> CurrentUser(users, cred).Ok?
    ensures r.Ok? ==> SortedBy(r.value, NameKey)
    ensures r.Ok? ==> multiset(r.value) == multiset(if SeesAllRooms(CurrentUser(users, cred).value, ms) then rooms
                                                     else JoinedRooms(rooms, ms, CurrentUser(users, cred).value.id))
  {
    match CurrentUser(users, cred)
    case Err(e) => Err(e)
    case Ok(u) =>
      var visible := if SeesAllRooms(u, ms) then rooms else JoinedRooms(rooms, ms, u.id);
      SortBySorted(visible, NameKey);
      Ok(SortBy(visible, NameKey))
  }

  /** A room is listed iff it exists and the caller sees all rooms or is a member. */
  lemma MyRoomsMembers(users: seq<UserRow>, rooms: seq<RoomRow>, ms: seq<Membership>, cred: Credentials, x: RoomRow)
    requires CurrentUser(users, cred).Ok?
    ensures var u := CurrentUser(users, cred).value;
            x in MyRooms(users, rooms, ms, cred).value <==>
              x in rooms && (SeesAllRooms(u, ms) || RoleOf(ms, u.id, x.name).Some?)
  {
    var u := CurrentUser(users, cred).value;
    var listed := MyRooms(users, rooms, ms, cred).value;
    assert x in listed <==> x in multiset(listed);
    if !SeesAllRooms(u, ms) {
      var joined := JoinedRooms(rooms, ms, u.id);
      assert x in multiset(listed) <==> x in joined;
      if x in joined {
        var k :| 0 <= k < |joined| && joined[k] == x;
      }
      if x in rooms && RoleOf(ms, u.id, x.name).Some? {
        var k :| 0 <= k < |rooms| && rooms[k] == x;
      }
    }
  }

  /** The body of `GET /admin/my-role/{room}`. */
  datatype RoleReport = RoleReport(role: Option<string>, isSuperuser: bool)

  /** `my_role`: the caller's role in the room, or none, and their superuser flag. */
  function MyRole(users: seq<UserRow>, ms: seq<Membership>, cred: Credentials, room: string): (r: Result<RoleReport>)
    ensures r.Ok? <==> CurrentUser(users, cred).Ok?
    ensures r.Ok? ==> r.value.isSuperuser == CurrentUser(users, cred).value.isSuperuser
    ensures r.Ok? && r.value.role.Some? ==> Membership(CurrentUser(users, cred).value.id, room, r.value.role.value) in ms
    ensures r.Ok? && r.value.role.None? ==>
              forall k :: 0 <= k < |ms| ==> !(ms[k].userId == CurrentUser(users, cred).value.id && ms[k].room == room)
  {
    match CurrentUser(users, cred)
    case Err(e) => Err(e)
    case Ok(u) => Ok(RoleReport(RoleOf(ms, u.id, room), u.isSuperuser))
  }
}

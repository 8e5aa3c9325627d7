/**
 * The room the signed-in user works in (frontend/src/contexts/RoomContext.tsx):
 * the rooms list and current room, the user's role there, and the values
 * derived from them for the rest of the client.
 */
module RoomContext {
  import opened Common

  /** A room as `GET /admin/my-rooms` lists it. */
  datatype Room = Room(name: string, displayName: string, logoUrl: Option<string>,
                       welcomePageId: Option<int>, publicSlug: Option<string>)

  /** `rooms.find(r => r.name === name)`: the first room with that name. */
  function FindRoom(rooms: seq<Room>, name: string): (r: Option<Room>)
    ensures r.Some? ==> r.value in rooms && r.value.name == name
    ensures r.None? <==> forall i :: 0 <= i < |rooms| ==> rooms[i].name != name
    ensures r.Some? ==> exists i :: 0 <= i < |rooms| && rooms[i] == r.value && FirstNamed(rooms, name, i)
  {
    if rooms == [] then None
    else if rooms[0].name == name then Some(rooms[0])
    else
      var r := FindRoom(rooms[1..], name);
      if r.Some? then
        var i :| 0 <= i < |rooms| - 1 && rooms[1..][i] == r.value && FirstNamed(rooms[1..], name, i);
        assert rooms[i + 1] == r.value && FirstNamed(rooms, name, i + 1);
        r
      else r
  }

  /** No room before position i has that name. */
  predicate FirstNamed(rooms: seq<Room>, name: string, i: nat)
  {
    forall j :: 0 <= j < i && j < |rooms| ==> rooms[j].name != name
  }

  /** Whether a current room counts as unset for the default-room step: empty or the public schema. */
  predicate Unset(room: string)
  {
    room == "" || room == "public"
  }

  /** The `setCurrentRoom` updater after a successful load: an unset room becomes the first room, if any. */
  function DefaultRoom(prev: string, data: seq<Room>): (r: string)
    ensures Unset(prev) ==> r == if |data| > 0 then data[0].name else ""
    ensures !Unset(prev) ==> r == prev
  {
    if Unset(prev) then (if |data| > 0 then data[0].name else "") else prev
  }

  /** Running the step again with the same list changes nothing. */
  lemma DefaultRoomIdempotent(prev: string, data: seq<Room>)
    ensures DefaultRoom(DefaultRoom(prev, data), data) == DefaultRoom(prev, data)
  {
  }

  /**
   * A room set before the load is kept even when the user is no member of
   * it: the step does not make the current room one of the listed rooms.
   */
  lemma DefaultRoomKeepsStranger(prev: string, data: seq<Room>)
    requires !Unset(prev) && FindRoom(data, prev).None?
    ensures DefaultRoom(prev, data) == prev && FindRoom(data, DefaultRoom(prev, data)).None?
  {
  }

  /** The provider's state. */
  class RoomState {
    var rooms: seq<Room>
    var currentRoom: string
    var myRole: Option<string>
    var loading: bool

    constructor ()
      ensures rooms == [] && currentRoom == "" && myRole == None && loading
    {
      rooms := [];
      currentRoom := "";
      myRole := None;
      loading := true;
    }

    /**
     * `refreshRooms`: without a token nothing happens; otherwise the list is
     * fetched (`res`) and, when that answered ok, replaces the rooms and the
     * default-room step runs. Loading ends either way.
     */
    method RefreshRooms(token: Option<string>, res: Fetch<seq<Room>>)
      modifies this
      ensures !Truthy(token) ==> unchanged(this)
      ensures Truthy(token) && res.Response? && res.ok ==>
        rooms == res.body && currentRoom == DefaultRoom(old(currentRoom), res.body)
      ensures Truthy(token) && !(res.Response? && res.ok) ==>
        rooms == old(rooms) && currentRoom == old(currentRoom)
      ensures Truthy(token) ==> !loading
      ensures myRole == old(myRole)
    {
      if !Truthy(token) {
        return;
      }
      loading := true;
      if res.Response? && res.ok {
        rooms := res.body;
        currentRoom := DefaultRoom(currentRoom, res.body);
      }
      loading := false;
    }

    /**
     * `fetchMyRole`: with no token or no current room the role is cleared;
     * otherwise an ok answer (`res`, the `role` field) replaces it.
     */
    method FetchMyRole(token: Option<string>, res: Fetch<Option<string>>)
      modifies this
      ensures !Truthy(token) || currentRoom == "" ==> myRole == None
      ensures Truthy(token) && currentRoom != "" ==>
        myRole == if res.Response? && res.ok then res.body else old(myRole)
      ensures rooms == old(rooms) && currentRoom == old(currentRoom) && loading == old(loading)
    {
      if !Truthy(token) || currentRoom == "" {
        myRole := None;
        return;
      }
      if res.Response? && res.ok {
        myRole := res.body;
      }
    }

    /** `switchRoom(name)`: any name is taken, member or not. */
    method SwitchRoom(name: string)
      modifies this
      ensures currentRoom == name
      ensures rooms == old(rooms) && myRole == old(myRole) && loading == old(loading)
    {
      currentRoom := name;
    }
  }

  /** `currentLogo`: the room's logo when one is set, else the default logo. */
  function CurrentLogo(apiBase: string, defaultLogo: string, currentRoom: string, rooms: seq<Room>): (r: string)
    ensures currentRoom == "" ==> r == defaultLogo
    ensures currentRoom != "" && FindRoom(rooms, currentRoom).Some? && Truthy(FindRoom(rooms, currentRoom).value.logoUrl) ==>
      r == apiBase + FindRoom(rooms, currentRoom).value.logoUrl.value
    ensures !(FindRoom(rooms, currentRoom).Some? && Truthy(FindRoom(rooms, currentRoom).value.logoUrl)) ==>
      r == defaultLogo
  {
    if currentRoom == "" then defaultLogo
    else
      var room := FindRoom(rooms, currentRoom);
      if room.Some? && Truthy(room.value.logoUrl) then apiBase + room.value.logoUrl.value else defaultLogo
  }

  /** `welcomePageId`: the current room's field, or null when the room or the field is missing. */
  function WelcomePageId(currentRoom: string, rooms: seq<Room>): (r: Option<int>)
    ensures FindRoom(rooms, currentRoom).None? ==> r == None
    ensures FindRoom(rooms, currentRoom).Some? ==> r == FindRoom(rooms, currentRoom).value.welcomePageId
  {
    match FindRoom(rooms, currentRoom)
    case None => None
    case Some(room) => room.welcomePageId
  }

  /** `currentPublicSlug`: the current room's public slug, or null. */
  function CurrentPublicSlug(currentRoom: string, rooms: seq<Room>): (r: Option<string>)
    ensures FindRoom(rooms, currentRoom).None? ==> r == None
    ensures FindRoom(rooms, currentRoom).Some? ==> r == FindRoom(rooms, currentRoom).value.publicSlug
  {
    match FindRoom(rooms, currentRoom)
    case None => None
    case Some(room) => room.publicSlug
  }

  /** `canEdit`: superusers always; others need a room and a role other than Viewer. */
  function CanEdit(isSuperuser: bool, currentRoom: string, myRole: Option<string>): (r: bool)
    ensures isSuperuser ==> r
    ensures !isSuperuser ==> (r <==> currentRoom != "" && myRole.Some? && myRole.value != "Viewer")
  {
    if isSuperuser then true
    else if currentRoom == "" then false
    else myRole.Some? && myRole.value != "Viewer"
  }

  /** `canAdmin`: exactly the superuser flag. */
  function CanAdmin(isSuperuser: bool): (r: bool)
    ensures r == isSuperuser
  {
    isSuperuser
  }
}

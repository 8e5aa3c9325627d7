/**
 * Where the browser client and the server meet: what the client shows or
 * sends, set against what the endpoints then do with it.
 */
module Agreement {
  import opened Common
  import opened LtreePaths
  import opened Accounts
  import opened PagesApi
  import opened AdminApi
  import opened RoomContext
  import opened SidebarTree
  import opened AdminPanel

  /**
   * With a room chosen that names a tenant and a stored role of the four,
   * the client's `canEdit` is exactly the server's Editor check for that
   * room, for the role `my-role` reported.
   */
  lemma EditButtonsMatchServer(u: UserRow, ms: seq<Membership>, room: string)
    requires room != "" && room != "public"
    requires RoleOf(ms, u.id, room).Some? ==> KnownRole(RoleOf(ms, u.id, room).value)
    ensures CanEdit(u.isSuperuser, room, RoleOf(ms, u.id, room)) <==> CheckRole(Some(u), room, "Editor", ms).Ok?
  {
  }

  /**
   * A stored role outside the four still shows the editing controls,
   * while the server refuses every Editor action for it.
   */
  lemma UnknownRoleShowsButtons(u: UserRow, ms: seq<Membership>, room: string)
    requires !u.isSuperuser && room != "" && room != "public"
    requires RoleOf(ms, u.id, room).Some? && !KnownRole(RoleOf(ms, u.id, room).value)
    ensures CanEdit(u.isSuperuser, room, RoleOf(ms, u.id, room))
    ensures CheckRole(Some(u), room, "Editor", ms).Err?
  {
  }

  /** A page created from the sidebar lands under the parent the user chose, or at the top. */
  lemma NewPageLandsUnderParent(title: string, slug: string, parent: Option<string>)
    requires '.' !in slug
    ensures var body := NewPageBody(title, slug, parent);
            && (Truthy(parent) ==> ParentOf(NewPath(body.parentPath, body.slug)) == parent.value
                                   && LastLabel(NewPath(body.parentPath, body.slug)) == slug)
            && (!Truthy(parent) ==> NewPath(body.parentPath, body.slug) == slug)
  {
  }

  /** The admin panel's room list as the body of `PUT /admin/users/{id}/rooms`. */
  function ItemsOf(entries: seq<RoomEntry>): (r: seq<AdminApi.RoomItem>)
    ensures |r| == |entries| && ItemsNamed(r)
    ensures forall k :: 0 <= k < |r| ==> r[k] == AdminApi.RoomItem(Some(entries[k].room), Some(entries[k].role))
  {
    seq(|entries|, k requires 0 <= k < |entries| => AdminApi.RoomItem(Some(entries[k].room), Some(entries[k].role)))
  }

  /**
   * Choosing "all rooms" in the panel and saving leaves the user with the
   * single membership `__all__` as Viewer, and `my-rooms` then lists every room.
   */
  lemma AllRoomsChoice(current: seq<RoomEntry>, u: UserRow, ms: seq<Membership>, rooms: seq<RoomRow>)
    ensures Assigned(u.id, ItemsOf(AddRoom(current, AllRooms))) == [Membership(u.id, AllRooms, "Viewer")]
    ensures SeesAllRooms(u, MembersExceptUser(ms, u.id) + Assigned(u.id, ItemsOf(AddRoom(current, AllRooms))))
  {
    var items := ItemsOf(AddRoom(current, AllRooms));
    assert items == [AdminApi.RoomItem(Some(AllRooms), Some("Viewer"))];
    assert items[..0] == [];
    var base := MembersExceptUser(ms, u.id);
    var added := [Membership(u.id, AllRooms, "Viewer")];
    OtherUsersKeepRoles(ms, u.id, u.id + 1, AllRooms);
    RoleOfAppend(base, added, u.id, AllRooms);
  }

  /**
   * Saving a panel list whose rooms are all different gives the user each
   * listed room with the role shown next to it, and no other room.
   */
  lemma SavedListIsStored(entries: seq<RoomEntry>, uid: int, ms: seq<Membership>, room: string)
    requires forall i, j :: 0 <= i < j < |entries| ==> entries[i].room != entries[j].room
    requires forall k :: 0 <= k < |entries| ==> KnownRole(entries[k].role)
    ensures var stored := MembersExceptUser(ms, uid) + Assigned(uid, ItemsOf(entries));
            && (forall k :: 0 <= k < |entries| ==> RoleOf(stored, uid, entries[k].room) == Some(entries[k].role))
            && (RoleOf(stored, uid, room).Some? ==> exists k :: 0 <= k < |entries| && entries[k].room == room)
  {
    var items := ItemsOf(entries);
    var base := MembersExceptUser(ms, uid);
    var stored := base + Assigned(uid, items);
    forall k | 0 <= k < |entries| ensures RoleOf(stored, uid, entries[k].room) == Some(entries[k].role) {
      OtherUsersKeepRoles(ms, uid, uid + 1, entries[k].room);
      RoleOfAppend(base, Assigned(uid, items), uid, entries[k].room);
      AssignedFirstWins(uid, items, k);
    }
    OtherUsersKeepRoles(ms, uid, uid + 1, room);
    RoleOfAppend(base, Assigned(uid, items), uid, room);
    AssignedRooms(uid, items, room);
    if RoleOf(stored, uid, room).Some? {
      var k :| 0 <= k < |items| && items[k].room == Some(room);
      assert entries[k].room == room;
    }
  }
}

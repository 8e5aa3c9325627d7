/**
 * The page endpoints of one room (backend/app/api/endpoints/pages.py): the
 * role ladder `_check_role`, the tree read, and page create, read, update
 * and delete. The `pages` table the request's tenant resolves to is a
 * `PageStore`; the membership rows the role check reads come from the
 * shared `user_rooms` table.
 */
module PagesApi {
  import opened Common
  import opened LtreePaths
  import opened PageTree
  import opened ForestBuild
  import opened Ordering
  import opened Accounts

  /** The four roles a membership row may hold. */
  predicate KnownRole(role: string)
  {
    role == "Viewer" || role == "Editor" || role == "Admin" || role == "Owner"
  }

  /** `role_hierarchy.get(role, -1)`: the level of a stored role. */
  function Level(role: string): (l: int)
    ensures -1 <= l <= 3
    ensures l >= 0 <==> KnownRole(role)
  {
    if role == "Viewer" then 0
    else if role == "Editor" then 1
    else if role == "Admin" then 2
    else if role == "Owner" then 3
    else -1
  }

  /** `role_hierarchy.get(min_role, 0)`: the level a check demands. */
  function RequiredLevel(minRole: string): (l: int)
    ensures 0 <= l <= 3
    ensures KnownRole(minRole) ==> l == Level(minRole)
  {
    if KnownRole(minRole) then Level(minRole) else 0
  }

  /**
   * `_check_role`: whether `user` may act with at least `minRole` in the
   * room named by the request's tenant.
   */
  function CheckRole(user: Option<UserRow>, tenant: string, minRole: string, ms: seq<Membership>): (r: Result<()>)
    ensures r.Err? ==> r.error.status == (if user.None? then 401 else 403)
    ensures user.Some? && (user.value.isSuperuser || tenant == "public") ==> r.Ok?
    ensures user.Some? && !user.value.isSuperuser && tenant != "public" ==>
              (r.Ok? <==> RoleOf(ms, user.value.id, tenant).Some?
                          && Level(RoleOf(ms, user.value.id, tenant).value) >= RequiredLevel(minRole))
  {
    if user.None? then Err(HttpError(401, "Authentication required"))
    else if user.value.isSuperuser then Ok(())
    else if tenant == "public" then Ok(())
    else
      match RoleOf(ms, user.value.id, tenant)
      case None => Err(HttpError(403, "No access to this room"))
      case Some(role) =>
        if Level(role) < RequiredLevel(minRole)
        then Err(HttpError(403, "Requires " + minRole + "+ role, you have " + role))
        else Ok(())
  }

  /** A caller who passes a check also passes every check that demands less. */
  lemma CheckRoleMonotone(user: Option<UserRow>, tenant: string, ms: seq<Membership>, higher: string, lower: string)
    requires RequiredLevel(lower) <= RequiredLevel(higher)
    requires CheckRole(user, tenant, higher, ms).Ok?
    ensures CheckRole(user, tenant, lower, ms).Ok?
  {
  }

  /**
   * The thresholds the endpoints use, for a member who is not a superuser
   * in a room other than "public": reading needs one of the four roles,
   * creating and updating need Editor, Admin or Owner, deleting needs Admin
   * or Owner.
   */
  lemma Thresholds(u: UserRow, tenant: string, ms: seq<Membership>, role: string)
    requires !u.isSuperuser && tenant != "public" && RoleOf(ms, u.id, tenant) == Some(role)
    ensures CheckRole(Some(u), tenant, "Viewer", ms).Ok? <==> KnownRole(role)
    ensures CheckRole(Some(u), tenant, "Editor", ms).Ok? <==> role in {"Editor", "Admin", "Owner"}
    ensures CheckRole(Some(u), tenant, "Admin", ms).Ok? <==> role in {"Admin", "Owner"}
    ensures CheckRole(Some(u), tenant, "Viewer", ms) ==
              (if KnownRole(role) then Ok(()) else Err(HttpError(403, "Requires Viewer+ role, you have " + role)))
  {
    ViewerThreshold(u, tenant, ms, role);
    EditorThreshold(u, tenant, ms, role);
    AdminThreshold(u, tenant, ms, role);
  }

  lemma ViewerThreshold(u: UserRow, tenant: string, ms: seq<Membership>, role: string)
    requires !u.isSuperuser && tenant != "public" && RoleOf(ms, u.id, tenant) == Some(role)
    ensures CheckRole(Some(u), tenant, "Viewer", ms) ==
              (if KnownRole(role) then Ok(()) else Err(HttpError(403, "Requires Viewer+ role, you have " + role)))
  {
    assert RequiredLevel("Viewer") == 0;
  }

  lemma EditorThreshold(u: UserRow, tenant: string, ms: seq<Membership>, role: string)
    requires !u.isSuperuser && tenant != "public" && RoleOf(ms, u.id, tenant) == Some(role)
    ensures CheckRole(Some(u), tenant, "Editor", ms).Ok? <==> role in {"Editor", "Admin", "Owner"}
  {
    assert RequiredLevel("Editor") == 1;
  }

  lemma AdminThreshold(u: UserRow, tenant: string, ms: seq<Membership>, role: string)
    requires !u.isSuperuser && tenant != "public" && RoleOf(ms, u.id, tenant) == Some(role)
    ensures CheckRole(Some(u), tenant, "Admin", ms).Ok? <==> role in {"Admin", "Owner"}
  {
    assert RequiredLevel("Admin") == 2;
  }

  /**
   * The check in front of `GET /pages/tree`: only a signed-in caller in a
   * room other than "public" is checked, for Viewer. An anonymous request
   * reads the tree of any room.
   */
  function TreeGate(tenant: string, viewer: Option<UserRow>, ms: seq<Membership>): (r: Result<()>)
    ensures r.Ok? <==> viewer.None? || tenant == "public" || viewer.value.isSuperuser
                       || (RoleOf(ms, viewer.value.id, tenant).Some? && KnownRole(RoleOf(ms, viewer.value.id, tenant).value))
    ensures r.Err? ==> r.error.status == 403
  {
    if tenant != "public" && viewer.Some? then CheckRole(viewer, tenant, "Viewer", ms) else Ok(())
  }

  /** `create_page`: the new path is the slug, under the parent path when one is given. */
  function NewPath(parentPath: Option<string>, slug: string): (p: string)
    ensures !Truthy(parentPath) ==> p == slug
    ensures Truthy(parentPath) && '.' !in slug ==>
              '.' in p && ParentOf(p) == parentPath.value && LastLabel(p) == slug
              && Depth(p) == Depth(parentPath.value) + 1
  {
    if Truthy(parentPath) then
      if '.' !in slug then
        ParentOfChild(parentPath.value, slug);
        parentPath.value + "." + slug
      else parentPath.value + "." + slug
    else slug
  }

  /** Ids are handed out increasing, so the stored order is the id order. */
  predicate IdsOrdered(rows: seq<PageRow>)
  {
    forall i, j :: 0 <= i < j < |rows| ==> rows[i].id < rows[j].id
  }

  /** Some page already has this slug (`slug` is UNIQUE). */
  predicate SlugUsed(rows: seq<PageRow>, slug: string)
  {
    exists k :: 0 <= k < |rows| && rows[k].slug == slug
  }

  /** The position of the page with the given id. */
  function PageIndex(rows: seq<PageRow>, id: int): (r: Option<nat>)
    ensures r.Some? ==> r.value < |rows| && rows[r.value].id == id
    ensures r.None? <==> forall k :: 0 <= k < |rows| ==> rows[k].id != id
  {
    if rows == [] then None
    else if rows[|rows| - 1].id == id then Some(|rows| - 1)
    else PageIndex(rows[..|rows| - 1], id)
  }

  /** `get_page`: the page with the given id, or 404. No role is checked. */
  function GetPage(rows: seq<PageRow>, id: int): (r: Result<PageRow>)
    ensures r.Ok? ==> r.value in rows && r.value.id == id
    ensures r.Err? <==> forall k :: 0 <= k < |rows| ==> rows[k].id != id
    ensures r.Err? ==> r.error == HttpError(404, "Page not found")
  {
    match PageIndex(rows, id)
    case Some(k) => Ok(rows[k])
    case None => Err(HttpError(404, "Page not found"))
  }

  /**
   * The `pages` table a tenant's queries reach. `SET search_path TO
   * "<tenant>", public` finds the tenant schema's own table when there is
   * one, and otherwise falls through to the public schema's. `schemas` maps
   * each room schema that holds a `pages` table to its rows.
   */
  function TenantPages(schemas: map<string, seq<PageRow>>, publicPages: seq<PageRow>, tenant: string)
    : (r: seq<PageRow>)
    ensures tenant != "public" && tenant in schemas ==> r == schemas[tenant]
    ensures tenant == "public" || tenant !in schemas ==> r == publicPages
  {
    if tenant != "public" && tenant in schemas then schemas[tenant] else publicPages
  }

  /**
   * A `pages` table. Its ids come from a sequence that every room's table
   * shares with the public one, so a new id exceeds every stored id.
   */
  class PageStore {
    var rows: seq<PageRow>

    ghost predicate Valid()
      reads this
    {
      && IdsOrdered(rows)
      && (forall i, j :: 0 <= i < j < |rows| ==> rows[i].slug != rows[j].slug)
    }

    constructor ()
      ensures Valid() && rows == []
    {
      rows := [];
    }
  }

  /** With increasing ids, the row found for an id is the only one with it. */
  lemma OnlyRowWithId(rows: seq<PageRow>, id: int, k: nat, j: nat)
    requires IdsOrdered(rows) && PageIndex(rows, id) == Some(k) && j < |rows|
    ensures rows[j].id == id <==> j == k
  {
  }

  /** Removing the row found for an id keeps the table's constraints and leaves no row with that id. */
  lemma RemoveRow(rows: seq<PageRow>, id: int, k: nat)
    requires IdsOrdered(rows) && PageIndex(rows, id) == Some(k)
    requires forall i, j :: 0 <= i < j < |rows| ==> rows[i].slug != rows[j].slug
    ensures var rest := rows[..k] + rows[k + 1..];
            && IdsOrdered(rest)
            && (forall i, j :: 0 <= i < j < |rest| ==> rest[i].slug != rest[j].slug)
            && (forall j :: 0 <= j < |rest| ==> rest[j].id != id)
  {
    var rest := rows[..k] + rows[k + 1..];
    forall j | 0 <= j < |rest| ensures rest[j] == rows[Skip(j, k)] {
      if j < k {
        assert rest[j] == rows[..k][j];
      } else {
        assert rest[j] == rows[k + 1..][j - k];
      }
    }
    forall i, j | 0 <= i < j < |rest|
      ensures rest[i].id < rest[j].id && rest[i].slug != rest[j].slug
    {
      assert rest[i] == rows[Skip(i, k)] && rest[j] == rows[Skip(j, k)];
    }
    forall j | 0 <= j < |rest| ensures rest[j].id != id {
      OnlyRowWithId(rows, id, k, Skip(j, k));
    }
  }

  /** The position in the old rows of position j once row k is gone. */
  function Skip(j: nat, k: nat): nat
  {
    if j < k then j else j + 1
  }

  /**
   * `get_page_tree`: the gate, then the pages built into a forest in the
   * order `ORDER BY path` returned them. `listing` is that answer: the
   * table's rows sorted by path, with rows of equal path in whatever order
   * the database chose (`SortBy` gives one such order).
   */
  method GetPageTree(store: PageStore, tenant: string, viewer: Option<UserRow>, ms: seq<Membership>,
                     listing: seq<PageRow>)
    returns (r: Result<seq<Node>>)
    requires multiset(listing) == multiset(store.rows) && SortedBy(listing, PathKey)
    ensures TreeGate(tenant, viewer, ms).Err? ==> r == Err(TreeGate(tenant, viewer, ms).error)
    ensures TreeGate(tenant, viewer, ms).Ok? ==> r == Ok(Forest(listing, true))
  {
    var gate := TreeGate(tenant, viewer, ms);
    if gate.Err? {
      return Err(gate.error);
    }
    var roots := BuildForest(listing, true);
    r := Ok(roots);
  }

  /**
   * `create_page` for the caller `get_current_user` produced: Editor or
   * better, then a new row at the path `NewPath` gives. A slug already in
   * use violates the UNIQUE constraint and the insert fails. `freshId` is
   * the value the shared id sequence hands out, above every stored id; a
   * failed insert uses one up as well, so the next call's `freshId` need
   * not follow on.
   */
  method CreatePage(store: PageStore, tenant: string, caller: Result<UserRow>, ms: seq<Membership>,
                    title: string, slug: string, content: Option<string>, parentPath: Option<string>,
                    freshId: int)
    returns (r: Result<PageRow>)
    requires store.Valid()
    requires forall k :: 0 <= k < |store.rows| ==> store.rows[k].id < freshId
    modifies store
    ensures store.Valid()
    ensures caller.Err? ==> r == Err(caller.error)
    ensures caller.Ok? && CheckRole(Some(caller.value), tenant, "Editor", ms).Err? ==>
              r == Err(CheckRole(Some(caller.value), tenant, "Editor", ms).error)
    ensures r.Ok? <==> caller.Ok? && CheckRole(Some(caller.value), tenant, "Editor", ms).Ok?
                       && !SlugUsed(old(store.rows), slug)
    ensures r.Ok? ==> r.value == PageRow(freshId, title, slug, content, NewPath(parentPath, slug))
                      && store.rows == old(store.rows) + [r.value]
    ensures r.Err? ==> unchanged(store)
  {
    if caller.Err? {
      return Err(caller.error);
    }
    var check := CheckRole(Some(caller.value), tenant, "Editor", ms);
    if check.Err? {
      return Err(check.error);
    }
    if SlugUsed(store.rows, slug) {
      return Err(ServerError);
    }
    var page := PageRow(freshId, title, slug, content, NewPath(parentPath, slug));
    store.rows := store.rows + [page];
    r := Ok(page);
  }

  /**
   * `update_page`: Editor or better, then 404 for an unknown id, then only
   * the content is replaced — by `None` when the body sends none. Title,
   * slug and parent path in the body are ignored.
   */
  method UpdatePage(store: PageStore, tenant: string, caller: Result<UserRow>, ms: seq<Membership>,
                    id: int, content: Option<string>)
    returns (r: Result<PageRow>)
    requires store.Valid()
    modifies store
    ensures store.Valid()
    ensures caller.Err? ==> r == Err(caller.error)
    ensures caller.Ok? && CheckRole(Some(caller.value), tenant, "Editor", ms).Err? ==>
              r == Err(CheckRole(Some(caller.value), tenant, "Editor", ms).error)
    ensures caller.Ok? && CheckRole(Some(caller.value), tenant, "Editor", ms).Ok? && GetPage(old(store.rows), id).Err? ==>
              r == Err(HttpError(404, "Page not found"))
    ensures r.Ok? <==> caller.Ok? && CheckRole(Some(caller.value), tenant, "Editor", ms).Ok?
                       && GetPage(old(store.rows), id).Ok?
    ensures r.Ok? ==> r.value == GetPage(old(store.rows), id).value.(content := content)
    ensures r.Ok? ==> |store.rows| == |old(store.rows)|
                      && forall k :: 0 <= k < |store.rows| ==>
                           store.rows[k] == if old(store.rows)[k].id == id then old(store.rows)[k].(content := content)
                                            else old(store.rows)[k]
    ensures r.Err? ==> unchanged(store)
  {
    if caller.Err? {
      return Err(caller.error);
    }
    var check := CheckRole(Some(caller.value), tenant, "Editor", ms);
    if check.Err? {
      return Err(check.error);
    }
    var at := PageIndex(store.rows, id);
    if at.None? {
      return Err(HttpError(404, "Page not found"));
    }
    var k := at.value;
    forall j | 0 <= j < |store.rows| ensures store.rows[j].id == id <==> j == k {
      OnlyRowWithId(store.rows, id, k, j);
    }
    var page := store.rows[k].(content := content);
    store.rows := store.rows[k := page];
    r := Ok(page);
  }

  /** `delete_page`: Admin or better, then 404 for an unknown id, then the row is gone. */
  method DeletePage(store: PageStore, tenant: string, caller: Result<UserRow>, ms: seq<Membership>, id: int)
    returns (r: Result<()>)
    requires store.Valid()
    modifies store
    ensures store.Valid()
    ensures caller.Err? ==> r == Err(caller.error)
    ensures caller.Ok? && CheckRole(Some(caller.value), tenant, "Admin", ms).Err? ==>
              r == Err(CheckRole(Some(caller.value), tenant, "Admin", ms).error)
    ensures caller.Ok? && CheckRole(Some(caller.value), tenant, "Admin", ms).Ok? && GetPage(old(store.rows), id).Err? ==>
              r == Err(HttpError(404, "Page not found"))
    ensures r.Ok? <==> caller.Ok? && CheckRole(Some(caller.value), tenant, "Admin", ms).Ok?
                       && GetPage(old(store.rows), id).Ok?
    ensures r.Ok? ==> PageIndex(old(store.rows), id).Some?
                      && var k := PageIndex(old(store.rows), id).value;
                         store.rows == old(store.rows)[..k] + old(store.rows)[k + 1..]
    ensures r.Ok? ==> forall k :: 0 <= k < |store.rows| ==> store.rows[k].id != id
    ensures r.Err? ==> unchanged(store)
  {
    if caller.Err? {
      return Err(caller.error);
    }
    var check := CheckRole(Some(caller.value), tenant, "Admin", ms);
    if check.Err? {
      return Err(check.error);
    }
    var at := PageIndex(store.rows, id);
    if at.None? {
      return Err(HttpError(404, "Page not found"));
    }
    var k := at.value;
    RemoveRow(store.rows, id, k);
    store.rows := store.rows[..k] + store.rows[k + 1..];
    r := Ok(());
  }
}

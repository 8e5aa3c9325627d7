/**
 * Read-only access to a room through its public link, without signing in
 * (backend/app/api/endpoints/public_view.py). Every request first resolves
 * the link's slug to a room in `wiki_rooms`; the room's pages are then read
 * from the `pages` table the room's name resolves to as a tenant
 * (`TenantPages`): the room schema's own, or the public one when the room
 * has none.
 */
module PublicViewApi {
  import opened Common
  import opened PageTree
  import opened ForestBuild
  import opened Ordering
  import opened Accounts
  import opened PagesApi

  /** The body of `GET /public/{slug}`. */
  datatype RoomInfo = RoomInfo(name: string, displayName: string, logoUrl: Option<string>)

  /** A page as the read-only endpoints return it. */
  datatype PageView = PageView(id: int, title: string, slug: string, content: Option<string>,
                               path: string, readOnly: bool)

  /** The response body for one page, marked read-only. */
  function ReadOnlyView(page: PageRow): (v: PageView)
    ensures v.readOnly
    ensures v.id == page.id && v.title == page.title && v.slug == page.slug
            && v.content == page.content && v.path == page.path
  {
    PageView(page.id, page.title, page.slug, page.content, page.path, true)
  }

  /** `_resolve_room`: the first room whose public slug is `slug`, or 404. */
  function ResolveRoom(rooms: seq<RoomRow>, slug: string): (r: Result<RoomInfo>)
    ensures r.Err? <==> forall k :: 0 <= k < |rooms| ==> rooms[k].publicSlug != Some(slug)
    ensures r.Err? ==> r.error == HttpError(404, "Public link not found")
    ensures r.Ok? ==> exists k :: 0 <= k < |rooms| && rooms[k].publicSlug == Some(slug)
                                  && r.value == RoomInfo(rooms[k].name, rooms[k].displayName, rooms[k].logoUrl)
  {
    if rooms == [] then Err(HttpError(404, "Public link not found"))
    else if rooms[0].publicSlug == Some(slug) then Ok(RoomInfo(rooms[0].name, rooms[0].displayName, rooms[0].logoUrl))
    else
      var r := ResolveRoom(rooms[1..], slug);
      assert forall k :: 1 <= k < |rooms| ==> rooms[k] == rooms[1..][k - 1];
      r
  }

  /** With unique slugs, a link resolves to the one room that holds it. */
  lemma {:induction false} ResolvesToHolder(rooms: seq<RoomRow>, k: nat, slug: string)
    requires SlugsUnique(rooms) && k < |rooms| && rooms[k].publicSlug == Some(slug)
    ensures ResolveRoom(rooms, slug) == Ok(RoomInfo(rooms[k].name, rooms[k].displayName, rooms[k].logoUrl))
  {
    if k > 0 {
      assert rooms[0].publicSlug != Some(slug);
      assert SlugsUnique(rooms[1..]) by {
        forall i, j | 0 <= i < j < |rooms[1..]|
          ensures rooms[1..][i].publicSlug.None? || rooms[1..][i].publicSlug != rooms[1..][j].publicSlug
        {
          assert rooms[1..][i] == rooms[i + 1] && rooms[1..][j] == rooms[j + 1];
        }
      }
      ResolvesToHolder(rooms[1..], k - 1, slug);
    }
  }

  /** Once a room's link is cleared, its old slug resolves to nothing. */
  lemma ClearedLinkIsGone(rooms: seq<RoomRow>, k: nat, slug: string)
    requires SlugsUnique(rooms) && k < |rooms| && rooms[k].publicSlug == Some(slug)
    ensures ResolveRoom(rooms[k := rooms[k].(publicSlug := None)], slug) == Err(HttpError(404, "Public link not found"))
  {
    var after := rooms[k := rooms[k].(publicSlug := None)];
    forall j | 0 <= j < |after| ensures after[j].publicSlug != Some(slug) {
      if j < k {
        assert rooms[j].publicSlug.None? || rooms[j].publicSlug != rooms[k].publicSlug;
      } else if j > k {
        assert rooms[k].publicSlug.None? || rooms[k].publicSlug != rooms[j].publicSlug;
      }
    }
  }

  /**
   * `public_room_tree`: the resolved room's pages built into a forest without
   * content, in the order `ORDER BY path` returned them. `listing` is that
   * answer for the resolved room: its rows sorted by path, rows of equal
   * path in whatever order the database chose.
   */
  method PublicRoomTree(rooms: seq<RoomRow>, schemas: map<string, seq<PageRow>>, publicPages: seq<PageRow>,
                        slug: string, listing: seq<PageRow>)
    returns (r: Result<seq<Node>>)
    requires ResolveRoom(rooms, slug).Ok? ==>
               && multiset(listing) == multiset(TenantPages(schemas, publicPages, ResolveRoom(rooms, slug).value.name))
               && SortedBy(listing, PathKey)
    ensures ResolveRoom(rooms, slug).Err? ==> r == Err(HttpError(404, "Public link not found"))
    ensures ResolveRoom(rooms, slug).Ok? ==> r == Ok(Forest(listing, false))
  {
    var room := ResolveRoom(rooms, slug);
    if room.Err? {
      return Err(room.error);
    }
    var roots := BuildForest(listing, false);
    r := Ok(roots);
  }

  /**
   * `public_room_page`: the link first (404), then the page in the table the
   * room resolves to (404), always read-only. A room without a schema of its
   * own serves the public space's pages.
   */
  function PublicRoomPage(rooms: seq<RoomRow>, schemas: map<string, seq<PageRow>>, publicPages: seq<PageRow>,
                          slug: string, id: int)
    : (r: Result<PageView>)
    ensures ResolveRoom(rooms, slug).Err? ==> r == Err(HttpError(404, "Public link not found"))
    ensures r.Ok? ==> r.value.readOnly && r.value.id == id
    ensures r.Ok? <==> ResolveRoom(rooms, slug).Ok?
                       && GetPage(TenantPages(schemas, publicPages, ResolveRoom(rooms, slug).value.name), id).Ok?
    ensures ResolveRoom(rooms, slug).Ok? && !r.Ok? ==> r == Err(HttpError(404, "Page not found"))
    ensures r.Ok? ==>
              r.value == ReadOnlyView(GetPage(TenantPages(schemas, publicPages, ResolveRoom(rooms, slug).value.name), id).value)
  {
    match ResolveRoom(rooms, slug)
    case Err(e) => Err(e)
    case Ok(room) =>
      match GetPage(TenantPages(schemas, publicPages, room.name), id)
      case Err(e) => Err(e)
      case Ok(page) => Ok(ReadOnlyView(page))
  }

  /**
   * A room whose link resolves but whose schema has no `pages` table shows
   * the public space's page through its link.
   */
  lemma MissingSchemaShowsPublic(rooms: seq<RoomRow>, schemas: map<string, seq<PageRow>>, publicPages: seq<PageRow>,
                                 slug: string, id: int)
    requires ResolveRoom(rooms, slug).Ok? && ResolveRoom(rooms, slug).value.name !in schemas
    requires GetPage(publicPages, id).Ok?
    ensures PublicRoomPage(rooms, schemas, publicPages, slug, id) == Ok(ReadOnlyView(GetPage(publicPages, id).value))
  {
  }
}

/**
 * Public links to single pages (backend/app/api/endpoints/shared_links.py).
 * Neither endpoint asks who is calling. Times are whole seconds on one
 * clock; `now` is the moment the request is handled.
 */
module SharedLinksApi {
  import opened Common
  import opened ForestBuild
  import opened PagesApi
  import opened PublicViewApi

  /** A row of `shared_links`. */
  datatype SharedLink = SharedLink(id: int, uuid: string, pageId: int, expiresAt: Option<int>)

  /** The length of `timedelta(days=1)` in seconds. */
  const SecondsPerDay: int := 86400

  /** `timedelta.max.days`: a `timedelta` of more days either way raises OverflowError. */
  const MaxDeltaDays: int := 999999999

  /** `datetime.min` (0001-01-01 00:00:00 UTC) in seconds on the model's clock, which counts from 1970. */
  const MinTime: int := -62135596800

  /** The last whole second `datetime` can hold, 9999-12-31 23:59:59 UTC. */
  const MaxTime: int := 253402300799

  /** The instants a Python `datetime` can represent. */
  predicate Representable(t: int)
  {
    MinTime <= t <= MaxTime
  }

  /**
   * The expiry `create_shared_link` computes: none for a missing or zero day
   * count, else `now` plus that many days. A day count `timedelta` refuses,
   * or a sum outside the years 1-9999, raises OverflowError, which the
   * server answers with 500.
   */
  function ExpiresAt(days: Option<int>, now: int): (r: Result<Option<int>>)
    ensures r.Ok? && r.value.None? <==> days.None? || days.value == 0
    ensures r.Ok? && r.value.Some? ==> r.value.value - now == days.value * SecondsPerDay && Representable(r.value.value)
    ensures r.Err? <==> days.Some? && days.value != 0
                        && (days.value > MaxDeltaDays || days.value < -MaxDeltaDays
                            || !Representable(now + days.value * SecondsPerDay))
    ensures r.Err? ==> r.error == ServerError
  {
    if days.None? || days.value == 0 then Ok(None)
    else if days.value > MaxDeltaDays || days.value < -MaxDeltaDays then Err(ServerError)
    else if !Representable(now + days.value * SecondsPerDay) then Err(ServerError)
    else Ok(Some(now + days.value * SecondsPerDay))
  }

  /**
   * From a representable `now`, any day count `timedelta` refuses would also
   * leave the calendar, so the sum alone decides; a year's worth of days
   * from today is always accepted.
   */
  lemma DeltaBoundSubsumed(days: int, now: int)
    requires Representable(now) && days != 0
    ensures days > MaxDeltaDays || days < -MaxDeltaDays ==> !Representable(now + days * SecondsPerDay)
    ensures (-366 <= days <= 366 && Representable(now - 366 * SecondsPerDay)
             && Representable(now + 366 * SecondsPerDay)) ==> ExpiresAt(Some(days), now).Ok?
  {
  }

  /** A link has expired once its expiry lies strictly before `now`. */
  predicate Expired(link: SharedLink, now: int)
  {
    link.expiresAt.Some? && link.expiresAt.value < now
  }

  /**
   * A link made at `created` stays usable forever without a day count, and
   * for an accepted positive count exactly up to and including `created`
   * plus that many days. A negative count, which the endpoint accepts, gives
   * a link that has expired a moment later.
   */
  lemma LinkLifetime(id: int, uuid: string, pageId: int, days: Option<int>, created: int, t: int)
    requires ExpiresAt(days, created).Ok?
    ensures var link := SharedLink(id, uuid, pageId, ExpiresAt(days, created).value);
            && (days.None? || days.value == 0 ==> !Expired(link, t))
            && (days.Some? && days.value != 0 ==> (Expired(link, t) <==> t > created + days.value * SecondsPerDay))
            && (days.Some? && days.value > 0 && t <= created + SecondsPerDay ==> !Expired(link, t))
            && (days.Some? && days.value < 0 && t >= created ==> Expired(link, t))
  {
  }

  /** The first link with the given uuid. */
  function FindLink(links: seq<SharedLink>, uuid: string): (r: Option<SharedLink>)
    ensures r.Some? ==> r.value in links && r.value.uuid == uuid
    ensures r.None? <==> forall k :: 0 <= k < |links| ==> links[k].uuid != uuid
  {
    if links == [] then None
    else if links[0].uuid == uuid then Some(links[0])
    else FindLink(links[1..], uuid)
  }

  /**
   * `get_shared_page`: unknown link 404, then expired 410, then missing page
   * 404. The links live in the public schema; `pages` is the `pages` table
   * the request's tenant resolves to.
   */
  function GetSharedPage(links: seq<SharedLink>, pages: seq<PageRow>, uuid: string, now: int): (r: Result<PageView>)
    ensures FindLink(links, uuid).None? ==> r == Err(HttpError(404, "Link not found"))
    ensures FindLink(links, uuid).Some? && Expired(FindLink(links, uuid).value, now) ==>
              r == Err(HttpError(410, "Link has expired"))
    ensures r.Ok? <==> FindLink(links, uuid).Some? && !Expired(FindLink(links, uuid).value, now)
                       && GetPage(pages, FindLink(links, uuid).value.pageId).Ok?
    ensures r.Err? && r.error.status != 410 ==> r.error.status == 404
    ensures r.Ok? ==> r == Ok(ReadOnlyView(GetPage(pages, FindLink(links, uuid).value.pageId).value))
  {
    match FindLink(links, uuid)
    case None => Err(HttpError(404, "Link not found"))
    case Some(link) =>
      if Expired(link, now) then Err(HttpError(410, "Link has expired"))
      else
        match GetPage(pages, link.pageId)
        case Err(e) => Err(e)
        case Ok(page) => Ok(ReadOnlyView(page))
  }

  /**
   * The `shared_links` table. It exists only in the public schema, so every
   * tenant reads and writes this one, and its `page_id` references the
   * public schema's `pages`.
   */
  class LinkStore {
    var links: seq<SharedLink>

    /** `uuid` is UNIQUE. */
    ghost predicate Valid()
      reads this
    {
      forall i, j :: 0 <= i < j < |links| ==> links[i].uuid != links[j].uuid
    }

    constructor ()
      ensures Valid() && links == []
    {
      links := [];
    }
  }

  /**
   * What `create_shared_link` answers, given the `pages` table of the
   * request's tenant and the public `pages` table the foreign key checks:
   * 404 for a page the tenant does not have, 500 for an expiry that
   * overflows, 500 when the insert breaks the foreign key or the UNIQUE
   * uuid, and otherwise the new row.
   */
  function CreateLinkCheck(links: seq<SharedLink>, pages: seq<PageRow>, publicPages: seq<PageRow>, pageId: int,
                           days: Option<int>, now: int, freshId: int, freshUuid: string)
    : (r: Result<SharedLink>)
    ensures GetPage(pages, pageId).Err? ==> r == Err(HttpError(404, "Page not found"))
    ensures GetPage(pages, pageId).Ok? && r.Err? ==> r.error == ServerError
    ensures r.Ok? <==> GetPage(pages, pageId).Ok? && ExpiresAt(days, now).Ok?
                       && GetPage(publicPages, pageId).Ok? && FindLink(links, freshUuid).None?
    ensures r.Ok? ==> r.value == SharedLink(freshId, freshUuid, pageId, ExpiresAt(days, now).value)
  {
    if GetPage(pages, pageId).Err? then Err(HttpError(404, "Page not found"))
    else match ExpiresAt(days, now)
      case Err(e) => Err(e)
      case Ok(expiry) =>
        if GetPage(publicPages, pageId).Err? || FindLink(links, freshUuid).Some? then Err(ServerError)
        else Ok(SharedLink(freshId, freshUuid, pageId, expiry))
  }

  /**
   * `create_shared_link`: the answer `CreateLinkCheck` gives, with the new
   * row stored on success and nothing stored otherwise. `freshId` is the
   * next value of the id sequence, above every stored id; a failed insert
   * uses one up too, which the caller's choice of `freshId` leaves open.
   */
  method CreateSharedLink(store: LinkStore, pages: seq<PageRow>, publicPages: seq<PageRow>, pageId: int,
                          days: Option<int>, now: int, freshId: int, freshUuid: string)
    returns (r: Result<SharedLink>)
    requires store.Valid()
    requires forall k :: 0 <= k < |store.links| ==> store.links[k].id < freshId
    modifies store
    ensures store.Valid()
    ensures r == CreateLinkCheck(old(store.links), pages, publicPages, pageId, days, now, freshId, freshUuid)
    ensures r.Ok? ==> store.links == old(store.links) + [r.value]
    ensures r.Err? ==> unchanged(store)
  {
    r := CreateLinkCheck(store.links, pages, publicPages, pageId, days, now, freshId, freshUuid);
    if r.Ok? {
      store.links := store.links + [r.value];
    }
  }

  /**
   * In a room, `pages` is the room's own table, whose ids never occur in the
   * public table, so every link to one of its pages breaks the foreign key:
   * creating it answers 500, and no link found through the room opens a
   * page, since every stored link names a public page.
   */
  lemma RoomLinksRefused(links: seq<SharedLink>, roomPages: seq<PageRow>, publicPages: seq<PageRow>, pageId: int,
                         days: Option<int>, now: int, freshId: int, freshUuid: string, uuid: string)
    requires forall i, j :: 0 <= i < |roomPages| && 0 <= j < |publicPages| ==> roomPages[i].id != publicPages[j].id
    requires forall k :: 0 <= k < |links| ==> GetPage(publicPages, links[k].pageId).Ok?
    requires GetPage(roomPages, pageId).Ok?
    ensures CreateLinkCheck(links, roomPages, publicPages, pageId, days, now, freshId, freshUuid).Err?
    ensures GetSharedPage(links, roomPages, uuid, now).Err?
  {
    var found := FindLink(links, uuid);
    if found.Some? {
      var link := found.value;
      var k :| 0 <= k < |links| && links[k] == link;
      var j := PageIndex(publicPages, link.pageId).value;
      assert publicPages[j].id == link.pageId;
    }
  }

  /** A uuid absent from `links` is found in `links + [link]` as that link. */
  lemma {:induction false} FindAppended(links: seq<SharedLink>, link: SharedLink)
    requires FindLink(links, link.uuid).None?
    ensures FindLink(links + [link], link.uuid) == Some(link)
  {
    if links != [] {
      assert (links + [link])[1..] == links[1..] + [link];
      FindAppended(links[1..], link);
    }
  }

  /**
   * Round trip: a link just created opens its page read-only until it
   * expires, and from then on answers 410, as long as the page is there.
   */
  lemma CreatedLinkOpens(links: seq<SharedLink>, pages: seq<PageRow>, link: SharedLink, t: int)
    requires FindLink(links, link.uuid).None? && GetPage(pages, link.pageId).Ok?
    ensures !Expired(link, t) ==>
              GetSharedPage(links + [link], pages, link.uuid, t) == Ok(ReadOnlyView(GetPage(pages, link.pageId).value))
    ensures Expired(link, t) ==>
              GetSharedPage(links + [link], pages, link.uuid, t) == Err(HttpError(410, "Link has expired"))
  {
    FindAppended(links, link);
  }
}

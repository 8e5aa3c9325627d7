/**
 * The read-only page of a published room (frontend/src/components/PublicView.tsx):
 * the room info and tree loaded on mount, selecting and loading a page, and
 * the logo shown.
 */
module PublicViewClient {
  import opened Common
  import opened JsNumbers
  import opened PageTree
  import opened TreeKeys

  /** `transformToTreeData(items)` of the public view: a leaf's children are left undefined. */
  function PublicTreeData(items: seq<Node>): (r: seq<TreeData>)
    ensures |r| == |items|
    ensures forall i :: 0 <= i < |items| ==>
      r[i].title == items[i].title && r[i].key == IntToString(items[i].id) &&
      r[i].children == (if items[i].children == [] then Undefined else Listed(PublicTreeData(items[i].children)))
  {
    if items == [] then []
    else
      var item := items[0];
      [TreeData(item.title, IntToString(item.id),
                if |item.children| > 0 then Listed(PublicTreeData(item.children)) else Undefined)]
      + PublicTreeData(items[1..])
  }

  /** At every level, the public tree's keys read in pre-order are the strings of the pages' ids. */
  lemma {:induction false} PublicAllKeys(items: seq<Node>)
    ensures AllKeys(PublicTreeData(items)) == IdKeys(PreOrder(items))
  {
    if items != [] {
      var t := PublicTreeData(items);
      var below, rest := PreOrder(items[0].children), PreOrder(items[1..]);
      PublicAllKeys(items[0].children);
      PublicAllKeys(items[1..]);
      assert t[1..] == PublicTreeData(items[1..]);
      if items[0].children == [] {
        assert t[0].children == Undefined;
        assert below == [];
      } else {
        assert t[0].children == Listed(PublicTreeData(items[0].children));
      }
      assert AllKeys(t) == [t[0].key] + IdKeys(below) + IdKeys(rest);
      IdKeysConcat([items[0]] + below, rest);
      IdKeysConcat([items[0]], below);
    }
  }

  /** `{ display_name, logo_url }` from `GET /public/{slug}`. */
  datatype RoomInfo = RoomInfo(displayName: string, logoUrl: Option<string>)

  /** A page from `GET /public/{slug}/page/{id}`. */
  datatype PageData = PageData(id: int, title: string, slug: string, content: string, path: string)

  /** `roomInfo?.logo_url ? API_BASE_URL + logo_url : '/logo.svg'`. */
  function LogoUrl(apiBase: string, info: Option<RoomInfo>): (r: string)
    ensures info.Some? && Truthy(info.value.logoUrl) ==> r == apiBase + info.value.logoUrl.value
    ensures !(info.Some? && Truthy(info.value.logoUrl)) ==> r == "/logo.svg"
  {
    if info.Some? && Truthy(info.value.logoUrl) then apiBase + info.value.logoUrl.value else "/logo.svg"
  }

  const NotFoundMessage := "Ссылка не найдена или недоступна"
  const LoadFailedMessage := "Ошибка загрузки"

  /** The component's state. */
  class PublicView {
    var roomInfo: Option<RoomInfo>
    var treeData: seq<TreeData>
    var selectedPageId: Option<JsNumber>
    var page: Option<PageData>
    var loading: bool
    var pageLoading: bool
    var error: Option<string>

    /** The initial state: loading, nothing shown yet. */
    constructor ()
      ensures roomInfo == None && treeData == [] && selectedPageId == None && page == None
      ensures loading && !pageLoading && error == None
    {
      roomInfo := None;
      treeData := [];
      selectedPageId := None;
      page := None;
      loading := true;
      pageLoading := false;
      error := None;
    }

    /**
     * The mount effect: fetch the room info and, only when that answered ok,
     * the tree. `tree` is the answer the tree request would get.
     */
    method LoadRoom(info: Fetch<RoomInfo>, tree: Fetch<seq<Node>>) returns (treeRequested: bool)
      modifies this
      ensures treeRequested <==> info.Response? && info.ok
      ensures !loading
      ensures info.Response? && !info.ok ==>
        error == Some(NotFoundMessage) && roomInfo == old(roomInfo) && treeData == old(treeData)
      ensures info.NetworkFailure? ==>
        error == Some(LoadFailedMessage) && roomInfo == old(roomInfo) && treeData == old(treeData)
      ensures treeRequested ==> roomInfo == Some(info.body)
      ensures treeRequested ==> treeData == if tree.Response? && tree.ok then PublicTreeData(tree.body) else old(treeData)
      ensures treeRequested ==> error == if tree.NetworkFailure? then Some(LoadFailedMessage) else old(error)
      ensures selectedPageId == old(selectedPageId) && page == old(page) && pageLoading == old(pageLoading)
    {
      treeRequested := false;
      if info.NetworkFailure? {
        error := Some(LoadFailedMessage);
      } else if !info.ok {
        error := Some(NotFoundMessage);
      } else {
        roomInfo := Some(info.body);
        treeRequested := true;
        if tree.NetworkFailure? {
          error := Some(LoadFailedMessage);
        } else if tree.ok {
          treeData := PublicTreeData(tree.body);
        }
      }
      loading := false;
    }

    /** `loadPage(id)`: show the page if the request answered ok, otherwise keep what is shown. */
    method LoadPage(res: Fetch<PageData>)
      modifies this
      ensures page == if res.Response? && res.ok then Some(res.body) else old(page)
      ensures !pageLoading
      ensures roomInfo == old(roomInfo) && treeData == old(treeData) && selectedPageId == old(selectedPageId)
      ensures loading == old(loading) && error == old(error)
    {
      pageLoading := true;
      if res.Response? && res.ok {
        page := Some(res.body);
      }
      pageLoading := false;
    }

    /**
     * `handleSelect(keys)`: an empty selection does nothing; otherwise the
     * selection becomes `Number(keys[0])` and that page is loaded, `res`
     * being the answer to that request. The id requested is returned.
     */
    method HandleSelect(keys: seq<string>, res: Fetch<PageData>) returns (requested: Option<JsNumber>)
      modifies this
      ensures requested == SelectedId(keys)
      ensures keys == [] ==> unchanged(this)
      ensures keys != [] ==>
        (selectedPageId == requested && !pageLoading &&
         page == (if res.Response? && res.ok then Some(res.body) else old(page)))
      ensures roomInfo == old(roomInfo) && treeData == old(treeData) && loading == old(loading) && error == old(error)
    {
      requested := None;
      if |keys| > 0 {
        var id := Number(keys[0]);
        selectedPageId := Some(id);
        requested := Some(id);
        LoadPage(res);
      }
    }
  }
}

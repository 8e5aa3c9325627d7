/**
 * The top of the client (frontend/src/App.tsx): which screen is shown, the
 * page selection and tree refresh counter of the wiki screen, and the
 * header's role tag and room control.
 */
module App {
  import opened Common
  import opened JsNumbers
  import opened TreeKeys
  import opened RoomContext

  const PublicPrefix := "/public/"

  /** The characters after `/public/` up to the next '/': the capture of `^\/public\/([^/]+)`. */
  function Segment(s: string): (r: string)
    ensures |r| <= |s| && r == s[..|r|] && '/' !in r
    ensures |r| < |s| ==> s[|r|] == '/'
  {
    if s == [] || s[0] == '/' then [] else [s[0]] + Segment(s[1..])
  }

  /** The public slug in a location path, if the path is a public link. */
  function PublicSlugOf(path: string): (r: Option<string>)
    ensures r.Some? ==> r.value != [] && '/' !in r.value && StartsWithPrefix(path, PublicPrefix + r.value)
    ensures r.None? <==> !StartsWithPrefix(path, PublicPrefix) || path[|PublicPrefix|..] == [] || path[|PublicPrefix|] == '/'
  {
    if StartsWithPrefix(path, PublicPrefix) && Segment(path[|PublicPrefix|..]) != [] then
      var seg := Segment(path[|PublicPrefix|..]);
      assert path[..|PublicPrefix| + |seg|] == PublicPrefix + seg;
      Some(seg)
    else None
  }

  predicate StartsWithPrefix(s: string, p: string)
  {
    |p| <= |s| && s[..|p|] == p
  }

  /** A link built as `/public/<slug>`, with anything after a further '/', opens that room. */
  lemma {:induction false} PublicLinkOpens(slug: string, rest: string)
    requires slug != [] && '/' !in slug
    requires rest == [] || rest[0] == '/'
    ensures PublicSlugOf(PublicPrefix + slug + rest) == Some(slug)
  {
    var path := PublicPrefix + slug + rest;
    assert path[..|PublicPrefix|] == PublicPrefix;
    assert path[|PublicPrefix|..] == slug + rest;
    SegmentOf(slug, rest);
  }

  lemma {:induction false} SegmentOf(seg: string, rest: string)
    requires '/' !in seg && (rest == [] || rest[0] == '/')
    ensures Segment(seg + rest) == seg
  {
    if seg != [] {
      assert (seg + rest)[1..] == seg[1..] + rest;
      SegmentOf(seg[1..], rest);
    } else {
      assert seg + rest == rest;
    }
  }

  /** The screens `App` can render. */
  datatype Screen = PublicPage(slug: string) | Spinner | Login | Wiki

  /** `App`: a public link first, before the loading and login checks. */
  function TopScreen(path: string, authLoading: bool, signedIn: bool): (r: Screen)
    ensures PublicSlugOf(path).Some? ==> r == PublicPage(PublicSlugOf(path).value)
    ensures PublicSlugOf(path).None? ==>
      r == if authLoading then Spinner else if !signedIn then Login else Wiki
  {
    match PublicSlugOf(path)
    case Some(slug) => PublicPage(slug)
    case None => if authLoading then Spinner else if !signedIn then Login else Wiki
  }

  /** The wiki screen's own state. */
  class WikiApp {
    var selectedPageId: Option<JsNumber>
    var treeKey: int
    var showAdmin: bool

    constructor ()
      ensures selectedPageId == None && treeKey == 0 && !showAdmin
    {
      selectedPageId := None;
      treeKey := 0;
      showAdmin := false;
    }

    /** `handlePageSelect(pageId)`. */
    method SelectPage(pageId: JsNumber)
      modifies this
      ensures selectedPageId == Some(pageId) && treeKey == old(treeKey) && showAdmin == old(showAdmin)
    {
      selectedPageId := Some(pageId);
    }

    /** `handlePageDeleted`: clear the selection and remount the sidebar tree. */
    method PageDeleted()
      modifies this
      ensures selectedPageId == None && treeKey == old(treeKey) + 1 && showAdmin == old(showAdmin)
      ensures !ShowsEditor(selectedPageId)
    {
      selectedPageId := None;
      treeKey := treeKey + 1;
    }

    /** The settings button. */
    method OpenAdmin()
      modifies this
      ensures showAdmin && selectedPageId == old(selectedPageId) && treeKey == old(treeKey)
    {
      showAdmin := true;
    }

    /** The admin panel's `onClose`: back to the wiki with a remounted tree. */
    method CloseAdmin()
      modifies this
      ensures !showAdmin && treeKey == old(treeKey) + 1 && selectedPageId == old(selectedPageId)
    {
      showAdmin := false;
      treeKey := treeKey + 1;
    }
  }

  /** The content area shows the editor exactly when a page is selected (non-null, non-zero). */
  predicate ShowsEditor(selectedPageId: Option<JsNumber>)
  {
    IsSelection(selectedPageId)
  }

  /** The tree highlights the page the editor shows, and nothing when the dashboard is shown. */
  lemma EditorMatchesHighlight(selectedPageId: Option<JsNumber>)
    ensures ShowsEditor(selectedPageId) <==> SelectedKeys(selectedPageId) != []
    ensures ShowsEditor(selectedPageId) ==> SelectedId(SelectedKeys(selectedPageId)) == selectedPageId
  {
  }

  /**
   * The members every JavaScript object inherits from `Object.prototype`;
   * indexing an object literal with one of these names finds the inherited
   * member.
   */
  const InheritedMembers: set<string> := {
    "constructor", "hasOwnProperty", "isPrototypeOf", "propertyIsEnumerable", "toLocaleString",
    "toString", "valueOf", "__proto__", "__defineGetter__", "__defineSetter__",
    "__lookupGetter__", "__lookupSetter__"}

  /**
   * What `roleColor` holds: a colour name, or the inherited member found for
   * a role spelled like one, which is truthy and so survives `|| 'default'`.
   */
  datatype ColorValue = Color(name: string) | Inherited(member: string)

  /**
   * `roleColor`: the colour of the four known roles, the inherited member for
   * a role named after one, and 'default' for any other role or no role.
   */
  function RoleColor(myRole: Option<string>): (r: ColorValue)
    ensures myRole == Some("Owner") ==> r == Color("gold")
    ensures myRole == Some("Admin") ==> r == Color("red")
    ensures myRole == Some("Editor") ==> r == Color("blue")
    ensures myRole == Some("Viewer") ==> r == Color("green")
    ensures myRole.Some? && myRole.value in InheritedMembers ==> r == Inherited(myRole.value)
    ensures r.Inherited? <==> myRole.Some? && myRole.value in InheritedMembers
    ensures !(myRole.Some? && myRole.value in {"Owner", "Admin", "Editor", "Viewer"} + InheritedMembers) ==>
              r == Color("default")
  {
    if !Truthy(myRole) then Color("default")
    else if myRole.value in InheritedMembers then Inherited(myRole.value)
    else match myRole.value
      case "Owner" => Color("gold")
      case "Admin" => Color("red")
      case "Editor" => Color("blue")
      case "Viewer" => Color("green")
      case _ => Color("default")
  }

  /** The role tag is shown for a set role outside the public space. */
  predicate RoleTagShown(myRole: Option<string>, currentRoom: string)
  {
    Truthy(myRole) && currentRoom != "public"
  }

  /** The header's room control: a room picker for editors, otherwise the room's name as text. */
  datatype RoomControl = Picker(options: seq<string>) | Label(text: string)

  function RoomNames(rooms: seq<Room>): (r: seq<string>)
    ensures |r| == |rooms| && forall i :: 0 <= i < |rooms| ==> r[i] == rooms[i].name
  {
    seq(|rooms|, i requires 0 <= i < |rooms| => rooms[i].name)
  }

  function HeaderRoomControl(canEdit: bool, rooms: seq<Room>, currentRoom: string): (r: RoomControl)
    ensures r.Picker? <==> canEdit
    ensures r.Picker? ==> |r.options| == |rooms| + 1 && r.options[0] == "public" && r.options[1..] == RoomNames(rooms)
    ensures r.Label? ==>
      var room := FindRoom(rooms, currentRoom);
      r.text == if room.Some? && room.value.displayName != "" then room.value.displayName else currentRoom
  {
    if canEdit then Picker(["public"] + RoomNames(rooms))
    else
      var room := FindRoom(rooms, currentRoom);
      Label(if room.Some? && room.value.displayName != "" then room.value.displayName else currentRoom)
  }
}

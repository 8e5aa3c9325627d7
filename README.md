# Wiki with rooms: a Dafny model

This project models the core of a small multi-tenant wiki. A FastAPI server keeps pages in one PostgreSQL schema per "room". It keeps users, rooms and the role each user holds in a room (Owner, Admin, Editor, Viewer) in the shared public schema. A React client shows the page tree in a sidebar, edits pages, and offers an administration panel. The model covers the following.

- **Server side.**
  - Authentication of a request (`get_current_user` and its optional variant).
  - Sign-in and sign-up, with the email validator of the request schemas.
  - The role check every page endpoint performs.
  - Building the page tree from rows ordered by their ltree path.
  - Creating, updating, deleting and reading pages.
  - The public read-only view of a room reached through its public slug.
  - Shared links to single pages with an optional expiry.
  - The administration endpoints: rooms, users, the room assignments of a user, `my-rooms` and `my-role`.
- **Client side.**
  - The request headers.
  - The room context: the room list, the current room, the role, `canEdit` and `canAdmin`.
  - The top-level screen choice and the page selection of the application shell.
  - The sidebar's tree data, selection keys and new-page request.
  - The public room view.
  - The editor's heading anchors and table of contents, parent-path choice and title heading.
  - The administration panel's slug generator and its room-assignment list edits.
- **Client and server together.** Lemmas in `Agreement` connect the two sides. For example:
  - The client's edit buttons appear exactly when the server accepts an Editor action.
  - A saved assignment list is what the server then stores.

The database tables are the fields of a `Database` object (and of `PageStore` and `LinkStore`). The endpoints that change them are methods that modify that object, under an invariant that holds the table constraints:

- user ids increase;
- emails are unique;
- room names are unique;
- public slugs are unique;
- the `(user, room)` key is unique;
- memberships reference existing users.

The client's state holders (`RoomState`, `PublicView`, `WikiApp`) are classes whose methods perform the state updates of the React handlers. Network responses are parameters of those methods.

The design documentation of the system describes a navigation layer that the code does not contain: a URL and history coordinator, a slug resolver and a by-slug page route. The model follows the code: `App.TopScreen` chooses the screen from the path, and page selection is plain state.

## Model

| member | source | states |
|---|---|---|
| Accounts.FindUser | backend/app/api/deps.py:48-51 | the user found has the id asked for; none is found exactly when no row has it |
| Accounts.FindEmail | backend/app/api/endpoints/auth.py:18-23 | the user found has the email asked for; none exactly when no row has it |
| Accounts.FindOrderedUser | backend/app/api/deps.py:48-49 | with increasing ids, looking up any stored user's id returns that user |
| Accounts.FindUserAppend | backend/app/api/endpoints/auth.py:38-46 | adding a user does not change whom an existing id resolves to |
| Accounts.CurrentUser | backend/app/api/deps.py:28-54 | a request passes exactly when it carries a token for an existing active user, who is then the caller; otherwise 403 for an inactive user and 401 for everything else |
| Accounts.CurrentUserOptional | backend/app/api/deps.py:57-77 | a user is returned only for a token naming an active stored user |
| Accounts.OptionalAgrees | backend/app/api/deps.py:28-77 | the optional lookup returns a user exactly when the strict one accepts, and the same user |
| Accounts.RoleOf | backend/app/api/endpoints/pages.py:28-32 | the role found is stored for that user and room; none exactly when no row has that key |
| Accounts.NameKeyOrder | backend/app/api/endpoints/admin.py:391-397 | ordering rooms by their name key is ordering by name |
| Accounts.AddUserKeepsValid | backend/app/api/endpoints/auth.py:38-46 | a new user with the next id and an unused email keeps every table constraint |
| Accounts.RoleOfAppend | backend/app/api/endpoints/admin.py:368-376 | a lookup in appended rows finds the earlier part's row first |
| Accounts.Database.constructor | backend/app/api/endpoints/admin.py:29-70 | empty tables satisfy the constraints and the id sequence starts at 1 |
| AdminApi.AddRoomKeepsValid | backend/app/api/endpoints/admin.py:106-114 | a room with a new name and an unused slug, plus its Owner row, keeps the constraints |
| AdminApi.CreateRoom | backend/app/api/endpoints/admin.py:95-121 | any authenticated caller creates a room under an unused, non-empty name with a fresh public slug and becomes its Owner; an existing name gives 400, and the empty name (a zero-length schema identifier) gives 500; a refusal changes nothing |
| AdminApi.Patch | backend/app/api/endpoints/admin.py:144-163 | only the fields present change; a welcome page id of 0 or less clears it; name, slug and logo are untouched |
| AdminApi.PatchIdempotent | backend/app/api/endpoints/admin.py:144-163 | applying an update twice equals applying it once; an empty update changes nothing |
| AdminApi.ReplaceRoom | backend/app/api/endpoints/admin.py:144-170 | replacing a room by one with the same name and no conflicting slug keeps the constraints |
| AdminApi.UpdateRoom | backend/app/api/endpoints/admin.py:131-172 | a superuser patches an existing room in place (else 403 or 404, nothing changes) and the other tables stay as they were |
| AdminApi.OtherRoomsKeepRoles | backend/app/api/endpoints/admin.py:181-188 | dropping a room's memberships keeps every role in other rooms and leaves none in that room |
| AdminApi.OtherUsersKeepRoles | backend/app/api/endpoints/admin.py:326-327 | dropping a user's memberships keeps every other user's roles and leaves that user none |
| AdminApi.SubsetMembersKnown | backend/app/api/endpoints/admin.py:181-188 | rows taken from memberships that reference known users still do |
| AdminApi.DropRoomKeepsValid | backend/app/api/endpoints/admin.py:175-193 | removing a room and its memberships keeps the constraints and leaves no room of that name |
| AdminApi.DeleteRoom | backend/app/api/endpoints/admin.py:175-193 | a superuser or the room's Owner removes the room and all its memberships, and the user accounts stay, whatever the name; anyone else gets 403, the empty name (a zero-length schema identifier) gives 500, and a refusal changes nothing |
| AdminApi.PublicRoomDeletionDropsUsers | backend/app/api/endpoints/admin.py:189-192 | as written, deleting a room named "public" drops the shared schema and with it every user account; any other name keeps the accounts |
| AdminApi.TogglePublicLink | backend/app/api/endpoints/admin.py:196-214 | any authenticated caller flips the room's public slug between unset and a fresh one; a missing room gives 404 |
| AdminApi.GrantsOfIff | backend/app/api/endpoints/admin.py:263-268 | a grant is listed for a user exactly when the membership row exists |
| AdminApi.GrantsStep | backend/app/api/endpoints/admin.py:266-268 | one more membership row extends only its own user's grant list, at the end |
| AdminApi.GroupByUser | backend/app/api/endpoints/admin.py:263-268 | the dictionary built holds, for every user, that user's memberships in table order |
| AdminApi.GroupedLookup | backend/app/api/endpoints/admin.py:270-280 | reading a user's entry with a default of `[]` yields exactly that user's grants |
| AdminApi.UsersWithRooms | backend/app/api/endpoints/admin.py:254-280 | any authenticated caller gets one entry per user, in id order, each with all of that user's rooms and roles |
| AdminApi.CreateUserCheck | backend/app/api/endpoints/admin.py:295-305 | only a superuser may add a user; a taken (lowered, stripped) email gives 400; the new row is active, not a superuser, and takes the next id |
| AdminApi.CreateUser | backend/app/api/endpoints/admin.py:289-309 | the answer is that of `CreateUserCheck`, the new row is appended on success, and nothing changes on refusal |
| AdminApi.KeptMembersKnown | backend/app/api/endpoints/admin.py:326-327 | after both deletes, memberships still reference existing users and the deleted id is gone |
| AdminApi.DropUserKeepsValid | backend/app/api/endpoints/admin.py:312-329 | deleting a user and their memberships keeps every constraint |
| AdminApi.DeleteUserCheck | backend/app/api/endpoints/admin.py:318-325 | the refusals in order: not authenticated, not a superuser (403), self-deletion (400), unknown user (404); success only for a superuser removing someone else who exists |
| AdminApi.DeleteUser | backend/app/api/endpoints/admin.py:312-329 | on success the user and all their memberships are gone; on refusal nothing changes |
| AdminApi.GrantedRole | backend/app/api/endpoints/admin.py:370-372 | the stored role is always one of the four; a missing or unknown role becomes Viewer |
| AdminApi.Assigned | backend/app/api/endpoints/admin.py:369-376 | the inserted rows all belong to the user, carry known roles and have unique keys |
| AdminApi.AssignedRooms | backend/app/api/endpoints/admin.py:369-376 | the user gets a role in a room exactly when some item names that room |
| AdminApi.AssignedFirstWins | backend/app/api/endpoints/admin.py:374 | with `ON CONFLICT DO NOTHING` the first item naming a room decides its role |
| AdminApi.AppendKeysUnique | backend/app/api/endpoints/admin.py:368-376 | rows of one user appended to rows of other users keep keys unique |
| AdminApi.AppendMembersKnown | backend/app/api/endpoints/admin.py:368-376 | rows for an existing user keep the foreign key satisfied |
| AdminApi.ReassignKeepsValid | backend/app/api/endpoints/admin.py:358-378 | replacing a user's memberships by the new list keeps every constraint |
| AdminApi.InsertGrants | backend/app/api/endpoints/admin.py:369-376 | the insert loop leaves the other users' rows followed by exactly the assigned rows |
| AdminApi.UpdateUserRooms | backend/app/api/endpoints/admin.py:358-378 | a superuser replaces all of a user's memberships by the list; an item without a room, or rows for a missing user, fail as a server error with nothing changed |
| AdminApi.MyRooms | backend/app/api/endpoints/admin.py:383-411 | the rooms are sorted by name and are all rooms for a superuser or an `__all__` member, otherwise exactly the joined rooms |
| AdminApi.MyRoomsMembers | backend/app/api/endpoints/admin.py:391-408 | a room is listed exactly when it exists and the caller sees all rooms or holds a role in it |
| AdminApi.MyRole | backend/app/api/endpoints/admin.py:414-425 | the report gives the caller's superuser flag and the stored role for that room, or none exactly when there is no row |
| AdminPanel.Transliterate | frontend/src/components/AdminPanel.tsx:58 | a character outside the table is kept as it is; table letters map to their Latin spelling |
| AdminPanel.TransliterateAll | frontend/src/components/AdminPanel.tsx:58 | transliteration never shortens the text |
| AdminPanel.TransliterateConcat | frontend/src/components/AdminPanel.tsx:58 | transliteration works letter by letter, so it distributes over concatenation |
| AdminPanel.ReplaceOthers | frontend/src/components/AdminPanel.tsx:60 | every character outside `[a-z0-9_]` becomes `_`, the others stay |
| AdminPanel.CollapseUnderscores | frontend/src/components/AdminPanel.tsx:61 | no two underscores remain adjacent; first and last characters are kept; text without doubles is unchanged |
| AdminPanel.TrimUnderscores | frontend/src/components/AdminPanel.tsx:62 | leading and trailing underscores are removed; text without them is unchanged |
| AdminPanel.GenerateSlug | frontend/src/components/AdminPanel.tsx:47-63 | the result is a slug (only `[a-z0-9_]`, no `__`, no edge `_`), and when non-empty it passes the room-ID rule of the create form |
| AdminPanel.TableKeysCyrillic | frontend/src/components/AdminPanel.tsx:48-54 | no slug character is a key of the transliteration table |
| AdminPanel.TransliterateSlugChars | frontend/src/components/AdminPanel.tsx:58 | transliteration leaves slug characters alone |
| AdminPanel.ReplaceSlugChars | frontend/src/components/AdminPanel.tsx:60 | replacement leaves slug characters alone |
| AdminPanel.SlugFixpoint | frontend/src/components/AdminPanel.tsx:47-63 | a slug is its own slug |
| AdminPanel.GenerateSlugIdempotent | frontend/src/components/AdminPanel.tsx:47-63 | generating a slug from a generated slug changes nothing |
| AdminPanel.TableLetters | frontend/src/components/AdminPanel.tsx:48-54 | multi-letter entries (щ, ж) and the hard and soft signs, which the table does not map, transliterate as written |
| AdminPanel.HardSignBecomesUnderscore | frontend/src/components/AdminPanel.tsx:47-63 | a word with a hard sign gets an underscore in its place ("Подъезд" → "pod_ezd") |
| AdminPanel.AddRoom | frontend/src/components/AdminPanel.tsx:309-317 | choosing `__all__` replaces the list by one Viewer entry; any other room is appended as Viewer |
| AdminPanel.RemoveRoom | frontend/src/components/AdminPanel.tsx:319-322 | exactly the entries of other rooms remain |
| AdminPanel.RemoveAbsentRoom | frontend/src/components/AdminPanel.tsx:319-322 | removing a room not in the list changes nothing |
| AdminPanel.AddThenRemove | frontend/src/components/AdminPanel.tsx:309-322 | adding a room and removing it again equals just removing it |
| AdminPanel.ChangeRole | frontend/src/components/AdminPanel.tsx:324-327 | the entries of that room get the new role; all others and the order are unchanged |
| AdminPanel.AvailableRooms | frontend/src/components/AdminPanel.tsx:620 | exactly the rooms not already in the user's list are offered |
| AdminPanel.AddedRoomNotOffered | frontend/src/components/AdminPanel.tsx:620 | a room just added is no longer offered |
| AdminPanel.Choices | frontend/src/components/AdminPanel.tsx:142-149 | each page becomes its id and title, in order |
| AdminPanel.FlattenStep | frontend/src/components/AdminPanel.tsx:142-149 | one more top-level item contributes itself, then its subtree |
| AdminPanel.Flatten | frontend/src/components/AdminPanel.tsx:142-149 | the page choices are the pre-order of the tree as (id, title) pairs |
| Agreement.EditButtonsMatchServer | frontend/src/contexts/RoomContext.tsx:122-126 | for a known stored role, `canEdit` holds exactly when the server's Editor check passes |
| Agreement.UnknownRoleShowsButtons | frontend/src/contexts/RoomContext.tsx:122-126 | a stored role outside the four shows edit controls the server then refuses |
| Agreement.NewPageLandsUnderParent | frontend/src/components/SidebarTree.tsx:75-76 | the created page's path has the chosen parent as parent and the slug as last label, or is the slug at top level |
| Agreement.ItemsOf | frontend/src/components/AdminPanel.tsx:329-333 | the saved body carries each entry's room and role, in order |
| Agreement.AllRoomsChoice | frontend/src/components/AdminPanel.tsx:309-317 | choosing all rooms stores the single `__all__` Viewer row, and `my-rooms` then lists every room |
| Agreement.SavedListIsStored | backend/app/api/endpoints/admin.py:358-378 | after saving a list with distinct rooms, the user holds exactly those rooms with the roles shown |
| App.Segment | frontend/src/App.tsx:133-137 | the path segment is the longest prefix before the first `/` |
| App.PublicSlugOf | frontend/src/App.tsx:133-137 | a `/public/<slug>` path yields its non-empty slug; others yield none |
| App.PublicLinkOpens | frontend/src/App.tsx:133-137 | every public link built from a slug is recognised with that slug |
| App.TopScreen | frontend/src/App.tsx:129-153 | a public path shows the public page whatever the sign-in state; otherwise spinner, login or the wiki |
| App.WikiApp.constructor | frontend/src/App.tsx:20-22 | nothing selected, tree key 0, panel closed |
| App.WikiApp.SelectPage | frontend/src/App.tsx:25-27 | selecting a page records it and leaves the rest |
| App.WikiApp.PageDeleted | frontend/src/App.tsx:29-32 | the selection is cleared, the tree reloads, the editor closes |
| App.WikiApp.OpenAdmin | frontend/src/App.tsx:87 | the panel opens and nothing else changes |
| App.WikiApp.CloseAdmin | frontend/src/App.tsx:34-35 | the panel closes and the tree reloads |
| App.EditorMatchesHighlight | frontend/src/App.tsx:118-122 | the editor is shown exactly when the sidebar highlights a page, and it is that page |
| App.RoleColor | frontend/src/App.tsx:38 | each of the four roles has its colour; a role named like a member every object inherits (`constructor`, `toString`, `__proto__`, ...) finds that member, which is truthy and so is kept; any other role, or none, gives "default" |
| App.HeaderRoomControl | frontend/src/App.tsx:53-70 | editors get a picker of "public" followed by every room; others see the room's display name or its id |
| AuthApi.Login | backend/app/api/endpoints/auth.py:13-26 | a malformed email is refused, an unknown email and a wrong password get the same 401, and a token is issued only for the matching user |
| AuthApi.TokenAuthenticates | backend/app/api/deps.py:48-54 | a token issued for a stored user authenticates as that user when active, and gives 403 otherwise |
| AuthApi.Register | backend/app/api/endpoints/auth.py:29-51 | a new valid email creates an active user with the next id, who is a superuser exactly when the table was empty; a taken email gives 400 |
| Config.AuthHeaders | frontend/src/config.ts:3-7 | JSON content type always, and a bearer header exactly when a token is present |
| Config.TenantHeaders | frontend/src/config.ts:9-13 | the tenant header is sent exactly for a named room other than "public", so the server works in that room and otherwise in "public" |
| Config.ServerTenant | backend/app/middleware/tenant.py:9 | a missing tenant header means the public schema |
| Editor.DropSeparators | frontend/src/components/Editor.tsx:25-26 | the leading run of non-letters is removed |
| Editor.Dashify | frontend/src/components/Editor.tsx:25-26 | replacing runs of non-letters never lengthens the text |
| Editor.DashifyChars | frontend/src/components/Editor.tsx:25-26 | the result holds only the input's letters and digits and dashes |
| Editor.DashifySingleDashes | frontend/src/components/Editor.tsx:25-26 | each run becomes a single dash, so no two dashes are adjacent |
| Editor.TrimDashes | frontend/src/components/Editor.tsx:25-26 | no leading or trailing dash remains |
| Editor.Slugify | frontend/src/components/Editor.tsx:25-26 | every anchor is non-empty, lower-case, letters and digits joined by single dashes |
| Editor.SlugifyKeepsLetters | frontend/src/components/Editor.tsx:25-26 | the anchor keeps exactly the lowered heading's letters and digits in order; with none it is "heading" |
| Editor.SlugifyIdempotent | frontend/src/components/Editor.tsx:25-26 | an anchor slugifies to itself |
| Editor.SlugOfSlug | frontend/src/components/Editor.tsx:25-26 | any lower-case anchor-shaped text is its own anchor |
| Editor.BaseSlugs | frontend/src/components/Editor.tsx:189-190 | each heading's base anchor is its slug |
| Editor.Toc | frontend/src/components/Editor.tsx:184-199 | one item per heading, with its level, text and numbered anchor; "constructor", the one anchor an empty object already holds, is never numbered |
| Editor.CountMapCounts | frontend/src/components/Editor.tsx:186-191 | the counting object holds how often each base anchor occurred, absent for none; its inherited `constructor` entry holds the text of the `Object` function with one "1" per occurrence |
| Editor.CountStep | frontend/src/components/Editor.tsx:190-192 | one heading bumps its base's entry, and its anchor gets `-n` exactly when the bumped entry exceeds 1, which the text under `constructor` never does |
| Editor.InheritedSlugRepeats | frontend/src/components/Editor.tsx:186-192 | two headings "constructor" are both anchored at "constructor" |
| Editor.BuildToc | frontend/src/components/Editor.tsx:184-199 | the loop produces the table of contents |
| Editor.FirstAnchorIsBase | frontend/src/components/Editor.tsx:190-192 | the first heading with a base gets the bare base as anchor |
| Editor.AnchorsMayCollide | frontend/src/components/Editor.tsx:190-192 | headings "a-2", "a", "a" give two items both anchored "a-2" |
| Editor.UpdateToc | frontend/src/components/Editor.tsx:200-208 | the previous list is kept when the count, texts and levels agree, else replaced |
| Editor.KeptTocIsCurrent | frontend/src/components/Editor.tsx:200-208 | two tables of contents that agree in texts and levels agree in anchors too, so the list the updater keeps is the one it would have computed |
| Editor.SettingsParentPath | frontend/src/components/Editor.tsx:101 | a top-level page has no parent; otherwise the parent followed by `.` and the last label is the path |
| Editor.SettingsParentOfChild | frontend/src/components/Editor.tsx:101 | a page created under a parent shows that parent |
| Editor.SafePages | frontend/src/components/Editor.tsx:118 | exactly the pages other than this one and outside its subtree are offered as parents |
| Editor.ChildNotOffered | frontend/src/components/Editor.tsx:118 | a child of the page is never offered as its parent |
| Editor.Walk | frontend/src/components/Editor.tsx:110-117 | the pages collected are those already collected followed by the tree in pre-order |
| Editor.WalkStep | frontend/src/components/Editor.tsx:110-117 | visiting one more node adds it and then its subtree |
| Editor.LoadedContent | frontend/src/components/Editor.tsx:410-414 | the result is the content (an empty paragraph when there is none), possibly behind a title heading; content that already opens with a level-one heading, or an empty title, is kept as it is; with a title the result always opens with a level-one heading |
| Editor.LoadedContentStable | frontend/src/components/Editor.tsx:410-414 | loading already loaded content changes nothing |
| ForestBuild.LastWithPath | backend/app/api/endpoints/pages.py:62 | the dictionary entry for a path is the last row before n with that path |
| ForestBuild.ParentIndex | backend/app/api/endpoints/pages.py:64-70 | a row's parent is an earlier row whose path is its parent path |
| ForestBuild.RootsUpTo | backend/app/api/endpoints/pages.py:65-66 | the roots are earlier rows, in order |
| ForestBuild.ChildrenUpTo | backend/app/api/endpoints/pages.py:67-70 | a node's children are later rows, in order |
| ForestBuild.Materialize | backend/app/api/endpoints/pages.py:61 | a node carries its row's fields, content only when asked, and as children the nodes of its attached rows, in order |
| ForestBuild.AllChildren | backend/app/api/endpoints/pages.py:59-71 | every child list points forward, so nodes can be assembled |
| ForestBuild.Attach | backend/app/api/endpoints/pages.py:69-70 | attaching keeps the number of child lists |
| ForestBuild.BuildForest | backend/app/api/endpoints/pages.py:54-72 | the loop over the ordered rows returns the forest of the specification functions |
| ForestBuild.BuildStep | backend/app/api/endpoints/pages.py:59-71 | one loop iteration keeps the dictionary, child lists and roots equal to their definitions |
| ForestBuild.AttachPoint | backend/app/api/endpoints/pages.py:68-70 | the dictionary lookup of the joined parent path finds the row's parent |
| ForestBuild.RootsStep | backend/app/api/endpoints/pages.py:65-66 | a single-label row is appended to the roots, no other |
| ForestBuild.NodeAtStep | backend/app/api/endpoints/pages.py:62 | storing the row under its path keeps the dictionary the last-row-per-path map |
| ForestBuild.ChildrenStep | backend/app/api/endpoints/pages.py:67-70 | appending to the parent's children keeps every child list equal to its definition |
| ForestBuild.NoChildrenBefore | backend/app/api/endpoints/pages.py:59-71 | a node has no children among rows up to itself |
| ForestBuild.RootMember | backend/app/api/endpoints/pages.py:65-66 | a row is a root exactly when its path has one label |
| ForestBuild.ChildMember | backend/app/api/endpoints/pages.py:67-70 | a row is a node's child exactly when that node is its parent |
| ForestBuild.AttachedIff | backend/app/api/endpoints/pages.py:69-70 | a nested row is attached exactly when an earlier row has its parent path |
| ForestBuild.Placement | backend/app/api/endpoints/pages.py:59-71 | every row is a root, a child of exactly its parent, or (an orphan) absent from the tree |
| ForestBuild.ForestRoots | backend/app/api/endpoints/pages.py:72 | the response lists the roots in order with their fields, each with the nodes of the rows appended under it, in row order |
| ForestBuild.ParentEarlier | backend/app/api/endpoints/pages.py:54 | in path order a parent comes before its children |
| ForestBuild.OrderedAttach | backend/app/api/endpoints/pages.py:54 | in path order a row is attached exactly when its parent row exists anywhere |
| JsNumbers.NatToString | frontend/src/components/SidebarTree.tsx:32 | the decimal form is non-empty digits with no leading zero |
| JsNumbers.IntToString | frontend/src/components/SidebarTree.tsx:32 | the form starts with `-` exactly for negative numbers |
| JsNumbers.DigitsOfNat | frontend/src/components/SidebarTree.tsx:32 | the digits read back as the number |
| JsNumbers.NumberOfString | frontend/src/components/SidebarTree.tsx:119-123 | `Number(String(id))` is the id again |
| JsNumbers.IntToStringInjective | frontend/src/components/SidebarTree.tsx:32 | different ids get different keys |
| Ordering.StrTotal | backend/app/api/endpoints/pages.py:54 | two different labels are ordered one way or the other |
| Ordering.StrTransitive | backend/app/api/endpoints/pages.py:54 | label order is transitive |
| Ordering.LabelsTotal | backend/app/api/endpoints/pages.py:54 | path order is total |
| Ordering.LabelsAsymmetric | backend/app/api/endpoints/pages.py:54 | path order is asymmetric |
| Ordering.LabelsTransitive | backend/app/api/endpoints/pages.py:54 | path order is transitive |
| Ordering.PrefixLess | backend/app/api/endpoints/pages.py:54 | an ancestor path sorts before its descendants |
| Ordering.Insert | backend/app/api/endpoints/pages.py:54 | insertion adds the element and nothing else |
| Ordering.SortBy | backend/app/api/endpoints/pages.py:54 | sorting keeps the rows as a multiset |
| Ordering.InsertSorted | backend/app/api/endpoints/pages.py:54 | inserting into a sorted list keeps it sorted |
| Ordering.SortBySorted | backend/app/api/endpoints/pages.py:54 | `ORDER BY path` yields rows sorted by path |
| PageTree.PreOrder | frontend/src/components/SidebarTree.tsx:18-27 | the flattened list has one entry per node of the forest |
| PageTree.PreOrderConcat | frontend/src/components/SidebarTree.tsx:18-27 | flattening two forests is flattening each in turn |
| PageTree.PreOrderSnoc | frontend/src/components/SidebarTree.tsx:18-27 | a last tree contributes itself and then its subtree |
| PageTree.RootPosition | frontend/src/components/SidebarTree.tsx:18-27 | each top-level node appears after all earlier trees |
| PageTree.SubtreeFollows | frontend/src/components/SidebarTree.tsx:18-27 | every node is followed directly by its whole subtree in pre-order |
| PagesApi.Level | backend/app/api/endpoints/pages.py:36-37 | the four roles rank 0 to 3 and any other role ranks -1 |
| PagesApi.RequiredLevel | backend/app/api/endpoints/pages.py:38 | a known minimum role ranks as itself; an unknown one as 0 |
| PagesApi.CheckRole | backend/app/api/endpoints/pages.py:17-41 | anonymous is 401, a superuser or the public tenant passes, otherwise the stored role must rank at least the minimum (403 if not) |
| PagesApi.CheckRoleMonotone | backend/app/api/endpoints/pages.py:36-41 | passing a higher requirement implies passing a lower one |
| PagesApi.Thresholds | backend/app/api/endpoints/pages.py:36-41 | Viewer admits the four roles, Editor admits Editor, Admin and Owner, Admin admits Admin and Owner |
| PagesApi.ViewerThreshold | backend/app/api/endpoints/pages.py:36-41 | an unknown stored role fails the Viewer check with its message |
| PagesApi.EditorThreshold | backend/app/api/endpoints/pages.py:36-41 | the roles that pass the Editor check |
| PagesApi.AdminThreshold | backend/app/api/endpoints/pages.py:36-41 | the roles that pass the Admin check |
| PagesApi.TreeGate | backend/app/api/endpoints/pages.py:51-52 | anonymous readers, the public tenant, superusers and room members with a known role may read the tree; others get 403 |
| PagesApi.NewPath | backend/app/api/endpoints/pages.py:99 | without a parent the path is the slug; with one it is one level deeper, under that parent, ending in the slug |
| PagesApi.GetPage | backend/app/api/endpoints/pages.py:75-87 | the page with that id, or 404 exactly when there is none |
| PagesApi.TenantPages | backend/app/db/tenancy.py:10-12 | a tenant reads its own schema's `pages` table when it has one, and the public schema's otherwise |
| PagesApi.PageStore.constructor | backend/app/api/endpoints/pages.py:90-110 | an empty table |
| PagesApi.RemoveRow | backend/app/api/endpoints/pages.py:141-149 | removing the row of an id keeps ids ordered and slugs unique, and removes that id |
| PagesApi.GetPageTree | backend/app/api/endpoints/pages.py:44-72 | a refused reader gets the gate's error; everyone else gets the forest, with content, of the rows in whatever path order the database returned, ties included |
| PagesApi.CreatePage | backend/app/api/endpoints/pages.py:90-110 | an Editor-level caller adds a page under the sequence's fresh id at its computed path; an unused slug is required; refusals leave the table as it was |
| PagesApi.UpdatePage | backend/app/api/endpoints/pages.py:113-131 | an Editor-level caller replaces the content of that one page, leaving every other row alone; a missing page gives 404 |
| PagesApi.DeletePage | backend/app/api/endpoints/pages.py:134-149 | an Admin-level caller removes exactly the row with that id; a missing page gives 404 |
| LtreePaths.Split | backend/app/api/endpoints/pages.py:64 | the labels contain no dot, and a path without a dot is a single label |
| LtreePaths.JoinSplit | backend/app/api/endpoints/pages.py:68 | joining the labels with dots gives the path back |
| LtreePaths.SplitAppend | backend/app/api/endpoints/pages.py:99 | appending `.label` appends one label |
| LtreePaths.ParentAndLabel | backend/app/api/endpoints/pages.py:68 | a nested path is its parent, a dot and its last label |
| LtreePaths.ParentOfChild | backend/app/api/endpoints/pages.py:99 | the parent of `p.label` is `p`, its last label is `label`, and it is one level deeper |
| LtreePaths.ParentLabels | backend/app/api/endpoints/pages.py:68 | the parent path's labels are all labels but the last |
| PublicViewApi.ReadOnlyView | backend/app/api/endpoints/public_view.py:83-90 | the response repeats the page's fields and is marked read-only |
| PublicViewApi.ResolveRoom | backend/app/api/endpoints/public_view.py:16-26 | a slug resolves to a room holding it, or 404 exactly when none does |
| PublicViewApi.ResolvesToHolder | backend/app/api/endpoints/public_view.py:16-26 | with unique slugs, a slug resolves to the room that holds it |
| PublicViewApi.ClearedLinkIsGone | backend/app/api/endpoints/admin.py:196-214 | once the public link is switched off, its slug no longer resolves |
| PublicViewApi.PublicRoomTree | backend/app/api/endpoints/public_view.py:35-66 | an unknown slug gives 404; otherwise the forest, without content, of the pages the room resolves to, in whatever path order the database returned |
| PublicViewApi.PublicRoomPage | backend/app/api/endpoints/public_view.py:69-90 | the page, from the table the room resolves to, as a read-only view; 404 for an unknown slug or page |
| PublicViewApi.MissingSchemaShowsPublic | backend/app/api/endpoints/public_view.py:69-90 | a room without a `pages` table of its own shows the public space's pages |
| PublicViewClient.PublicTreeData | frontend/src/components/PublicView.tsx:25-30 | one entry per node with its title and id as key; a leaf's children are undefined, any other node's are the tree data of its children |
| PublicViewClient.PublicAllKeys | frontend/src/components/PublicView.tsx:25-30 | at every level, the keys read in pre-order are the strings of the pages' ids |
| PublicViewClient.LogoUrl | frontend/src/components/PublicView.tsx:94 | the room's logo under the API base, else the bundled logo |
| PublicViewClient.PublicView.constructor | frontend/src/components/PublicView.tsx:34-40 | nothing loaded, loading on, no error |
| PublicViewClient.PublicView.LoadRoom | frontend/src/components/PublicView.tsx:42-60 | a refused room info gives the not-found message; a network failure gives the load error; otherwise the room and its tree are stored; loading ends in every case |
| PublicViewClient.PublicView.LoadPage | frontend/src/components/PublicView.tsx:62-71 | a successful response becomes the page shown, a failure keeps the old one, loading ends |
| PublicViewClient.PublicView.HandleSelect | frontend/src/components/PublicView.tsx:73-79 | an empty selection changes nothing; otherwise the selected id is recorded and its page loaded |
| RoomContext.FindRoom | frontend/src/contexts/RoomContext.tsx:99-106 | the first room with that name, or none exactly when no room has it |
| RoomContext.DefaultRoom | frontend/src/contexts/RoomContext.tsx:64-69 | an unset or public room becomes the first listed room; a chosen room is kept |
| RoomContext.DefaultRoomIdempotent | frontend/src/contexts/RoomContext.tsx:64-69 | refreshing twice picks the same room as refreshing once |
| RoomContext.DefaultRoomKeepsStranger | frontend/src/contexts/RoomContext.tsx:64-69 | a chosen room that is no longer listed is kept anyway |
| RoomContext.RoomState.constructor | frontend/src/contexts/RoomContext.tsx:39-42 | no rooms, no current room, no role, loading |
| RoomContext.RoomState.RefreshRooms | frontend/src/contexts/RoomContext.tsx:55-73 | without a token nothing happens; a good response replaces the list and picks the default room; loading then ends |
| RoomContext.RoomState.FetchMyRole | frontend/src/contexts/RoomContext.tsx:75-89 | without a token or a room the role is cleared; a good response sets it |
| RoomContext.RoomState.SwitchRoom | frontend/src/contexts/RoomContext.tsx:94-96 | the current room becomes the one chosen and nothing else changes |
| RoomContext.CurrentLogo | frontend/src/contexts/RoomContext.tsx:99-106 | the current room's logo under the API base, else the default logo |
| RoomContext.WelcomePageId | frontend/src/contexts/RoomContext.tsx:109-112 | the current room's welcome page, or none |
| RoomContext.CurrentPublicSlug | frontend/src/contexts/RoomContext.tsx:115-118 | the current room's public slug, or none |
| RoomContext.CanEdit | frontend/src/contexts/RoomContext.tsx:122-126 | superusers always; others with a room and any role but Viewer |
| RoomContext.CanAdmin | frontend/src/contexts/RoomContext.tsx:128 | exactly superusers |
| SharedLinksApi.ExpiresAt | backend/app/api/endpoints/shared_links.py:36-38 | no expiry for a missing or zero day count; 500 when the day count exceeds `timedelta`'s limit or the sum leaves the years 1-9999; otherwise that many days after now |
| SharedLinksApi.DeltaBoundSubsumed | backend/app/api/endpoints/shared_links.py:38 | from a representable time, a day count `timedelta` refuses would leave the calendar anyway, and a year's worth either way is accepted away from the calendar's ends |
| SharedLinksApi.LinkLifetime | backend/app/api/endpoints/shared_links.py:59-60 | a link without expiry never expires; with a positive count it works through the last second of its days; a negative count expires at once |
| SharedLinksApi.FindLink | backend/app/api/endpoints/shared_links.py:53-54 | the link with that uuid, or none exactly when no link has it |
| SharedLinksApi.GetSharedPage | backend/app/api/endpoints/shared_links.py:50-76 | unknown link 404, expired 410, missing page 404, else the page read-only |
| SharedLinksApi.CreateLinkCheck | backend/app/api/endpoints/shared_links.py:27-48 | 404 for a page the tenant lacks; 500 for an overflowing expiry, a page missing from the public table the foreign key references, or a taken uuid; otherwise the new row with its fresh id, uuid and expiry |
| SharedLinksApi.CreateSharedLink | backend/app/api/endpoints/shared_links.py:27-48 | the answer of `CreateLinkCheck`, with the row stored on success and nothing stored otherwise |
| SharedLinksApi.RoomLinksRefused | backend/app/models/shared_link.py:11 | in a room, creating a link to any of its pages fails, and no link opens one of its pages |
| SharedLinksApi.CreatedLinkOpens | backend/app/api/endpoints/shared_links.py:50-76 | a link just created opens its page until it expires and answers 410 afterwards |
| SidebarTree.FlattenTree | frontend/src/components/SidebarTree.tsx:18-27 | the parent selector lists the tree in pre-order |
| SidebarTree.SidebarTreeData | frontend/src/components/SidebarTree.tsx:29-35 | one entry per node with its title and id as key, and as children the tree data of its children, an empty list for a leaf |
| SidebarTree.SidebarAllKeys | frontend/src/components/SidebarTree.tsx:29-35 | at every level, the keys read in pre-order are the strings of the pages' ids |
| SidebarTree.SidebarKeys | frontend/src/components/SidebarTree.tsx:119-123 | a key anywhere in the tree reads back as its page's id, and two keys agree exactly when the ids do |
| SidebarTree.NewPageBody | frontend/src/components/SidebarTree.tsx:75-76 | the request carries title, slug and placeholder content, and a parent exactly when one was chosen |
| Text.LowerStr | backend/app/schemas/user.py:16 | lower-casing maps each character and leaves no upper-case letter |
| Text.Strip | backend/app/schemas/user.py:16 | no Python whitespace (0x1C-0x1F included) at either end; empty exactly for all-whitespace text; text without edge whitespace is unchanged |
| TreeKeys.SelectedKeys | frontend/src/components/SidebarTree.tsx:118 | at most one key, present exactly when a page is selected, reading back as its id |
| TreeKeys.SelectedId | frontend/src/components/SidebarTree.tsx:119-123 | an id exactly when a key was selected |
| TreeKeys.SelectionRoundTrip | frontend/src/components/SidebarTree.tsx:118-123 | highlighting a selected page and reading the key back gives the same id |
| UserSchema.MatchesEmailIff | backend/app/schemas/user.py:14 | the scanning check accepts exactly the strings of the email pattern |
| UserSchema.NormalizeEmail | backend/app/schemas/user.py:16 | the stored email has no upper-case letter and no Python whitespace at either end, and is empty only for an all-whitespace value |
| UserSchema.UnitSeparatorStripped | backend/app/schemas/user.py:16 | "a@b.c" followed by U+001F is stored as "a@b.c" |
| UserSchema.ValidateEmail | backend/app/schemas/user.py:11-16 | a rejection carries the schema's message; an acceptance carries the normalised email |
| UserSchema.ValidateEmailPattern | backend/app/schemas/user.py:14 | an email is accepted exactly when it matches the pattern |
| UserSchema.NormalizeIdempotent | backend/app/schemas/user.py:16 | normalising twice is normalising once |
| UserSchema.CheckedBeforeStrip | backend/app/schemas/user.py:14-16 | the pattern is checked before stripping, so " @b.c" is accepted and stored as "@b.c", which the pattern itself refuses |

## Left out

- Network, SQL execution, JWT encoding and signatures, password hashing, uuid generation and the clock. Credentials, hash and verify functions, fresh uuids and `now` are parameters.
- Room schemas are not part of `Database`, so the effect of `CREATE SCHEMA`/`DROP SCHEMA` on the room's `pages` table (including PostgreSQL's truncation of names longer than 63 bytes) is not modelled. Which `pages` table a tenant reaches through `search_path` is `PagesApi.TenantPages`; the page endpoints take that resolved table.
- AdminApi.CreateRoom: a name containing `"` is spliced unescaped into `CREATE SCHEMA "<name>"`. Depending on the rest of the name the statement fails (500) or runs other SQL; the model creates the room as for any other non-empty name.
- AdminApi.DeleteRoom: the same holds for a name containing `"` in `DROP SCHEMA`; the model removes the room. For the name "public" the model keeps the shared tables, where the endpoint drops them (see Findings). The router never passes the empty name, which the model answers as the handler would.
- The table creation at start-up (`_ensure_tables`) is not modelled. The constraints it declares are the `Database` invariant.
- Logo uploads and the default logo (`upload_room_logo` and the default-logo endpoints) are not modelled, because they do file I/O.
- Password reset (`reset_password`) is not modelled, because it only stores a new hash.
- Three other endpoints are not modelled: `list_rooms` with its feedback counts, `get_me`, and search.
- The rich-text editor's document model is reduced to heading lists and content strings.
- Casbin policies are not modelled.
- The authentication context is reduced to a token and a superuser flag.
- Unicode is limited to ASCII and the basic Cyrillic block (U+0400–U+045F):
  - letters and digits, and lower-casing, are defined on that alphabet;
  - whitespace is Python's full `str.isspace()` set for `strip()`, and JavaScript's `\s` set for the editor's heading test;
  - `Number()` is modelled for decimal integers only (other strings give NaN).
- Database collation: labels compare by code point.
- Row order inside one user's `users-with-rooms` entry is taken as table order. The query orders only by user id.
- The foreign key from shared links to the public `pages` table is modelled when a link is created (`SharedLinksApi.CreateLinkCheck`), but not when a page is deleted: deleting a public page that has links is not refused.
- React scheduling is not modelled: responses arrive in the order the handlers run, and a stale response is not discarded.
- `created_at` columns are not modelled.
- The `pos` comparison in the table-of-contents updater (Editor.tsx line 203) is not modelled. No item ever sets `pos`, so the comparison never differs.
- ltree label syntax (allowed label characters) is not checked. Paths are dot-separated strings.
- AdminApi.UsersWithRooms: states each entry's rooms in table order, not in the database's unspecified order within one user.
- AdminApi.CreateRoom, AdminApi.TogglePublicLink: refused when the fresh slug is already taken (the UNIQUE constraint); the server then answers 500, which the model does not distinguish.
- SharedLinksApi.CreateSharedLink: a uuid collision is answered 500 and nothing is stored. The server would also raise on the constraint.
- AuthApi.Login: `is_active` is not consulted at sign-in, as in the source. The inactive user is refused on the next request (`AuthApi.TokenAuthenticates`).
- PagesApi.CheckRole: the "Authentication required" 401 is unreachable from endpoints that use `get_current_user`, which already answers 401. It is modelled all the same.
- `users-with-rooms`, `create_room` and `toggle-public` ask only for an authenticated caller, not a superuser, as in the source.
- `get_page` performs no role check, as in the source.
- Anonymous readers may read a private room's tree, as in the source.

## Findings

| source | as written | input that shows it | evidently intended | confidence | as-written member | corrected member |
|---|---|---|---|---|---|---|
| backend/app/api/endpoints/admin.py:191 | `delete_room` splices any room name into `DROP SCHEMA IF EXISTS "<name>" CASCADE` | a superuser deletes the room "public" (the default tenant's name; no such room needs to exist) | deleting a room removes that room's data only; the shared tables and every user account stay | high; not executed | AdminApi.PublicRoomDeletionDropsUsers | AdminApi.DeleteRoom |

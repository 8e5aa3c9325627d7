/**
 * The data rules of the admin panel (frontend/src/components/AdminPanel.tsx):
 * the room ID proposed from a display name, the edits to a user's room list
 * that are sent to `PUT /admin/users/{id}/rooms`, the rooms still offered
 * for a user, and the page list for the welcome-page picker.
 */
module AdminPanel {
  import opened Text
  import opened PageTree

  // ---------------------------------------------------------------- room IDs

  /** The transliteration table of `generateSlug`; ъ and ь map to the empty string. */
  const CyrillicToLatin: map<char, string> := map[
    'а' := "a", 'б' := "b", 'в' := "v", 'г' := "g", 'д' := "d", 'е' := "e", 'ё' := "e", 'ж' := "zh",
    'з' := "z", 'и' := "i", 'й' := "y", 'к' := "k", 'л' := "l", 'м' := "m", 'н' := "n", 'о' := "o",
    'п' := "p", 'р' := "r", 'с' := "s", 'т' := "t", 'у' := "u", 'ф' := "f", 'х' := "h", 'ц' := "ts",
    'ч' := "ch", 'ш' := "sh", 'щ' := "sch", 'ъ' := "", 'ы' := "y", 'ь' := "", 'э' := "e", 'ю' := "yu",
    'я' := "ya"]

  /** The characters a room ID may hold: `[a-z0-9_]`. */
  predicate SlugChar(c: char)
  {
    'a' <= c <= 'z' || '0' <= c <= '9' || c == '_'
  }

  predicate NoDoubleUnderscore(s: string)
  {
    forall i :: 0 <= i < |s| - 1 ==> !(s[i] == '_' && s[i + 1] == '_')
  }

  /** What `generateSlug` can return: room-ID characters, single '_' separators, none at the ends. */
  predicate IsSlug(s: string)
  {
    (forall c :: c in s ==> SlugChar(c)) && NoDoubleUnderscore(s) &&
    (s == [] || (s[0] != '_' && s[|s| - 1] != '_'))
  }

  /** The rule of the room form's `name` field: `^[a-z0-9_]+$`. */
  predicate RoomIdRule(s: string)
  {
    |s| > 0 && forall c :: c in s ==> SlugChar(c)
  }

  /** `cyrillicToLatin[char] || char`: an empty table entry is falsy, so the letter itself stays. */
  function Transliterate(c: char): (r: string)
    ensures |r| >= 1
    ensures c !in CyrillicToLatin ==> r == [c]
  {
    if c in CyrillicToLatin && CyrillicToLatin[c] != "" then CyrillicToLatin[c] else [c]
  }

  /** `.split('').map(...).join('')`. */
  function TransliterateAll(s: string): (r: string)
    ensures |r| >= |s|
  {
    if s == [] then [] else Transliterate(s[0]) + TransliterateAll(s[1..])
  }

  /** `.replace(/[^a-z0-9_]/g, '_')`. */
  function ReplaceOthers(s: string): (r: string)
    ensures |r| == |s| && forall c :: c in r ==> SlugChar(c)
    ensures forall i :: 0 <= i < |s| ==> (SlugChar(s[i]) ==> r[i] == s[i]) && (!SlugChar(s[i]) ==> r[i] == '_')
  {
    seq(|s|, i requires 0 <= i < |s| => if SlugChar(s[i]) then s[i] else '_')
  }

  /** `.replace(/_+/g, '_')`. */
  function CollapseUnderscores(s: string): (r: string)
    ensures NoDoubleUnderscore(r)
    ensures |r| <= |s| && forall c :: c in r ==> c in s
    ensures |s| > 0 ==> |r| > 0 && r[0] == s[0] && r[|r| - 1] == s[|s| - 1]
    ensures NoDoubleUnderscore(s) ==> r == s
  {
    if |s| < 2 then s
    else if s[0] == '_' && s[1] == '_' then CollapseUnderscores(s[1..])
    else [s[0]] + CollapseUnderscores(s[1..])
  }

  /** `.replace(/^_|_$/g, '')`: one leading and one trailing '_' dropped. */
  function TrimUnderscores(s: string): (r: string)
    ensures |r| <= |s| && forall c :: c in r ==> c in s
    ensures NoDoubleUnderscore(s) ==> NoDoubleUnderscore(r) && (r == [] || (r[0] != '_' && r[|r| - 1] != '_'))
    ensures (s == [] || (s[0] != '_' && s[|s| - 1] != '_')) ==> r == s
  {
    var a := if |s| > 0 && s[0] == '_' then s[1..] else s;
    if |a| > 0 && a[|a| - 1] == '_' then a[..|a| - 1] else a
  }

  /** `generateSlug(text)`: the room ID proposed for a display name. */
  function GenerateSlug(text: string): (r: string)
    ensures IsSlug(r)
    ensures r != [] ==> RoomIdRule(r)
  {
    TrimUnderscores(CollapseUnderscores(ReplaceOthers(TransliterateAll(LowerStr(text)))))
  }

  /** No room-ID character is a key of the table. */
  lemma TableKeysCyrillic(c: char)
    requires SlugChar(c)
    ensures c !in CyrillicToLatin
  {
  }

  lemma {:induction false} TransliterateSlugChars(s: string)
    requires forall c :: c in s ==> SlugChar(c)
    ensures TransliterateAll(s) == s
  {
    if s != [] {
      TableKeysCyrillic(s[0]);
      TransliterateSlugChars(s[1..]);
    }
  }

  /** A room ID passes through `generateSlug` unchanged. */
  lemma SlugFixpoint(s: string)
    requires IsSlug(s)
    ensures GenerateSlug(s) == s
  {
    LowerStrOfLower(s);
    TransliterateSlugChars(s);
    ReplaceSlugChars(s);
  }

  /** Room-ID characters are left as they are by the replacement. */
  lemma ReplaceSlugChars(s: string)
    requires forall c :: c in s ==> SlugChar(c)
    ensures ReplaceOthers(s) == s
  {
    forall i | 0 <= i < |s| ensures SlugChar(s[i]) {
      assert s[i] in s;
    }
  }

  /** `generateSlug` is idempotent. */
  lemma GenerateSlugIdempotent(text: string)
    ensures GenerateSlug(GenerateSlug(text)) == GenerateSlug(text)
  {
    SlugFixpoint(GenerateSlug(text));
  }

  /**
   * A letter with a table entry becomes that entry; the hard and soft signs,
   * whose entries are empty, stay as they are.
   */
  lemma TableLetters()
    ensures Transliterate('щ') == "sch" && Transliterate('ж') == "zh"
    ensures Transliterate('ъ') == "ъ" && Transliterate('ь') == "ь"
  {
  }

  /** Because a hard sign survives transliteration, it turns into '_'. */
  lemma HardSignBecomesUnderscore()
    ensures GenerateSlug("Подъезд") == "pod_ezd"
  {
    LowerHardSignWord();
    TransliterateHardSignWord("подъезд");
    ReplaceHardSign();
    UnderscoredWordIsSlug();
  }

  lemma UnderscoredWordIsSlug()
    ensures IsSlug("pod_ezd")
  {
    var w := "pod_ezd";
    assert forall i :: 0 <= i < |w| ==> SlugChar(w[i]);
    forall c | c in w ensures SlugChar(c) {
      var i :| 0 <= i < |w| && w[i] == c;
    }
    assert forall i :: 0 <= i < |w| - 1 ==> w[i] != '_' || w[i + 1] != '_';
  }

  lemma ReplaceHardSign()
    ensures ReplaceOthers("podъezd") == "pod_ezd"
  {
  }

  lemma LowerHardSignWord()
    ensures LowerStr("Подъезд") == "подъезд"
  {
  }

  lemma TransliterateHardSignWord(w: string)
    requires w == "подъезд"
    ensures TransliterateAll(w) == "podъezd"
  {
    TransliteratePod();
    TransliterateEzd();
    TransliterateConcat("под", "ъезд");
    assert "под" + "ъезд" == w;
  }

  lemma TransliteratePod()
    ensures TransliterateAll("под") == "pod"
  {
    var w := "под";
    assert TransliterateAll(w[2..]) == "d";
    assert TransliterateAll(w[1..]) == "od";
  }

  lemma TransliterateEzd()
    ensures TransliterateAll("ъезд") == "ъezd"
  {
    var w := "ъезд";
    assert TransliterateAll(w[3..]) == "d";
    assert TransliterateAll(w[2..]) == "zd";
    assert TransliterateAll(w[1..]) == "ezd";
  }

  /** Transliteration works character by character, so it distributes over concatenation. */
  lemma {:induction false} TransliterateConcat(a: string, b: string)
    ensures TransliterateAll(a + b) == TransliterateAll(a) + TransliterateAll(b)
  {
    if a != [] {
      assert (a + b)[1..] == a[1..] + b;
      TransliterateConcat(a[1..], b);
    } else {
      assert a + b == b;
    }
  }

  // ------------------------------------------------------ a user's room list

  /** One row of a user's room list: `{ room, role }`. */
  datatype RoomEntry = RoomEntry(room: string, role: string)

  const AllRooms := "__all__"

  /**
   * `handleUserRoomAdd`: choosing "all rooms" replaces the list by that one
   * entry; any other room is appended as Viewer after the entries already there.
   */
  function AddRoom(current: seq<RoomEntry>, roomName: string): (r: seq<RoomEntry>)
    ensures roomName == AllRooms ==> r == [RoomEntry(AllRooms, "Viewer")]
    ensures roomName != AllRooms ==>
      (|r| == |current| + 1 && r[..|current|] == current && r[|current|] == RoomEntry(roomName, "Viewer"))
  {
    if roomName == AllRooms then [RoomEntry(AllRooms, "Viewer")]
    else current + [RoomEntry(roomName, "Viewer")]
  }

  /** `handleUserRoomRemove`: every entry for the room goes, the rest stay. */
  function RemoveRoom(current: seq<RoomEntry>, roomName: string): (r: seq<RoomEntry>)
    ensures |r| <= |current|
    ensures forall e :: e in r <==> e in current && e.room != roomName
  {
    if current == [] then []
    else (if current[0].room == roomName then [] else [current[0]]) + RemoveRoom(current[1..], roomName)
  }

  /** Removing works entry by entry, so the entries kept stay in their order. */
  lemma {:induction false} RemoveRoomConcat(a: seq<RoomEntry>, b: seq<RoomEntry>, roomName: string)
    ensures RemoveRoom(a + b, roomName) == RemoveRoom(a, roomName) + RemoveRoom(b, roomName)
  {
    if a == [] {
      assert a + b == b;
    } else {
      assert (a + b)[1..] == a[1..] + b;
      RemoveRoomConcat(a[1..], b, roomName);
    }
  }

  /** A list without the room is left as it is. */
  lemma {:induction false} RemoveAbsentRoom(current: seq<RoomEntry>, roomName: string)
    requires forall i :: 0 <= i < |current| ==> current[i].room != roomName
    ensures RemoveRoom(current, roomName) == current
  {
    if current != [] {
      RemoveAbsentRoom(current[1..], roomName);
    }
  }

  /** Removing a room just added gives the list the user had, minus that room. */
  lemma AddThenRemove(current: seq<RoomEntry>, roomName: string)
    requires roomName != AllRooms
    ensures RemoveRoom(AddRoom(current, roomName), roomName) == RemoveRoom(current, roomName)
  {
    RemoveRoomConcat(current, [RoomEntry(roomName, "Viewer")], roomName);
    assert RemoveRoom([RoomEntry(roomName, "Viewer")], roomName) == [];
  }

  /** `handleUserRoleChange`: same entries in the same order, only the room's role replaced. */
  function ChangeRole(current: seq<RoomEntry>, roomName: string, newRole: string): (r: seq<RoomEntry>)
    ensures |r| == |current|
    ensures forall i :: 0 <= i < |r| ==>
      (r[i].room == current[i].room &&
       r[i].role == (if current[i].room == roomName then newRole else current[i].role))
  {
    seq(|current|, i requires 0 <= i < |current| =>
      if current[i].room == roomName then current[i].(role := newRole) else current[i])
  }

  /** A room of the admin's room table as the panel lists it. */
  datatype RoomItem = RoomItem(name: string, displayName: string)

  /** The rooms offered for a user: those the user has no entry for, in table order. */
  function AvailableRooms(allRooms: seq<RoomItem>, entries: seq<RoomEntry>): (r: seq<RoomItem>)
    ensures forall x :: x in r <==> x in allRooms && forall e :: e in entries ==> e.room != x.name
  {
    if allRooms == [] then []
    else
      (if exists e :: e in entries && e.room == allRooms[0].name then [] else [allRooms[0]])
      + AvailableRooms(allRooms[1..], entries)
  }

  /** A room added to a user is no longer offered for that user. */
  lemma AddedRoomNotOffered(allRooms: seq<RoomItem>, current: seq<RoomEntry>, x: RoomItem)
    requires x.name != AllRooms
    ensures x !in AvailableRooms(allRooms, AddRoom(current, x.name))
  {
    var added := AddRoom(current, x.name);
    assert added[|current|] in added;
  }

  // -------------------------------------------------- welcome-page choices

  /** `{ id, title }` of a tree item. */
  datatype PageChoice = PageChoice(id: int, title: string)

  function Choices(items: seq<Node>): (r: seq<PageChoice>)
    ensures |r| == |items|
    ensures forall i :: 0 <= i < |items| ==> r[i] == PageChoice(items[i].id, items[i].title)
  {
    seq(|items|, i requires 0 <= i < |items| => PageChoice(items[i].id, items[i].title))
  }

  lemma ChoicesConcat(a: seq<Node>, b: seq<Node>)
    ensures Choices(a + b) == Choices(a) + Choices(b)
  {
  }

  /** The listing of one more root: that root's choice, then its subtree's. */
  lemma FlattenStep(items: seq<Node>, k: nat)
    requires k < |items|
    ensures Choices(PreOrder(items[..k + 1])) ==
      Choices(PreOrder(items[..k])) + [PageChoice(items[k].id, items[k].title)] + Choices(PreOrder(items[k].children))
  {
    var item := items[k];
    assert items[..k + 1] == items[..k] + [item];
    PreOrderSnoc(items[..k], item);
    ChoicesConcat(PreOrder(items[..k]) + [item], PreOrder(item.children));
    ChoicesConcat(PreOrder(items[..k]), [item]);
  }

  /**
   * `flatten` in `loadPages`: each item, then its children flattened
   * recursively. It lists the id and title of every item in pre-order.
   */
  method Flatten(items: seq<Node>) returns (result: seq<PageChoice>)
    ensures result == Choices(PreOrder(items))
    decreases Size(items)
  {
    result := [];
    var k := 0;
    while k < |items|
      invariant 0 <= k <= |items|
      invariant result == Choices(PreOrder(items[..k]))
    {
      var item := items[k];
      ghost var before := result;
      result := result + [PageChoice(item.id, item.title)];
      var below: seq<PageChoice> := [];
      if |item.children| > 0 {
        ChildrenSmaller(items, k);
        below := Flatten(item.children);
        result := result + below;
      }
      assert result == before + [PageChoice(item.id, item.title)] + below;
      FlattenStep(items, k);
      k := k + 1;
    }
    assert items[..k] == items;
  }
}

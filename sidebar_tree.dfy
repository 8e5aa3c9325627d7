/**
 * The page tree in the sidebar (frontend/src/components/SidebarTree.tsx):
 * the flat page list for the parent selector, the tree data for antd, the
 * selected key, and the body of the create-page request.
 */
module SidebarTree {
  import opened Common
  import opened JsNumbers
  import opened PageTree
  import opened TreeKeys

  /** `flattenTree(items)`: each item, then its children flattened, in a loop. */
  method FlattenTree(items: seq<Node>) returns (result: seq<Node>)
    ensures result == PreOrder(items)
    decreases Size(items)
  {
    result := [];
    var k := 0;
    while k < |items|
      invariant 0 <= k <= |items|
      invariant result == PreOrder(items[..k])
    {
      var item := items[k];
      result := result + [item];
      if |item.children| > 0 {
        ChildrenSmaller(items, k);
        var below := FlattenTree(item.children);
        result := result + below;
      }
      assert items[..k + 1] == items[..k] + [item];
      PreOrderSnoc(items[..k], item);
      k := k + 1;
    }
    assert items[..k] == items;
  }

  /** `transformToTreeData(items)` of the sidebar: every entry gets a children list, empty for a leaf. */
  function SidebarTreeData(items: seq<Node>): (r: seq<TreeData>)
    ensures |r| == |items|
    ensures forall i :: 0 <= i < |items| ==>
      r[i].title == items[i].title && r[i].key == IntToString(items[i].id) &&
      r[i].children == Listed(SidebarTreeData(items[i].children))
  {
    if items == [] then []
    else
      var item := items[0];
      [TreeData(item.title, IntToString(item.id), Listed(SidebarTreeData(item.children)))]
      + SidebarTreeData(items[1..])
  }

  /** At every level, the sidebar's keys read in pre-order are the strings of the pages' ids. */
  lemma {:induction false} SidebarAllKeys(items: seq<Node>)
    ensures AllKeys(SidebarTreeData(items)) == IdKeys(PreOrder(items))
  {
    if items != [] {
      var t := SidebarTreeData(items);
      var below, rest := PreOrder(items[0].children), PreOrder(items[1..]);
      SidebarAllKeys(items[0].children);
      SidebarAllKeys(items[1..]);
      assert t[0].children == Listed(SidebarTreeData(items[0].children));
      assert t[1..] == SidebarTreeData(items[1..]);
      assert AllKeys(t) == [t[0].key] + IdKeys(below) + IdKeys(rest);
      IdKeysConcat([items[0]] + below, rest);
      IdKeysConcat([items[0]], below);
    }
  }

  /**
   * Each key anywhere in the sidebar turns back into its page's id, so
   * distinct pages, at whatever depth, have distinct keys.
   */
  lemma SidebarKeys(items: seq<Node>, a: nat, b: nat)
    requires a < Size(items) && b < Size(items)
    ensures |AllKeys(SidebarTreeData(items))| == Size(items)
    ensures Number(AllKeys(SidebarTreeData(items))[a]) == Num(PreOrder(items)[a].id)
    ensures AllKeys(SidebarTreeData(items))[a] == AllKeys(SidebarTreeData(items))[b] <==>
            PreOrder(items)[a].id == PreOrder(items)[b].id
  {
    SidebarAllKeys(items);
    IdKeysDistinct(PreOrder(items), a, b);
  }

  /** The body of `POST /pages/`. */
  datatype CreateBody = CreateBody(title: string, slug: string, content: string, parentPath: Option<string>)

  /** `handleCreate`'s body: `parent_path` is sent only when a non-empty one was chosen. */
  function NewPageBody(title: string, slug: string, parentPath: Option<string>): (b: CreateBody)
    ensures b.title == title && b.slug == slug && b.content == "<p>New page content</p>"
    ensures b.parentPath.Some? <==> Truthy(parentPath)
    ensures b.parentPath.Some? ==> b.parentPath == parentPath
  {
    CreateBody(title, slug, "<p>New page content</p>", if Truthy(parentPath) then parentPath else None)
  }
}

/**
 * What the two client trees (the sidebar and the public view) hand to the
 * antd `Tree` component, and how a selected key travels back as a page id.
 */
module TreeKeys {
  import opened Common
  import opened JsNumbers
  import opened PageTree

  /** A `TreeDataNode`: title, key, and a children list that may be left undefined. */
  datatype TreeData = TreeData(title: string, key: string, children: Children)

  /** A node's `children` property: left undefined, or a list. */
  datatype Children = Undefined | Listed(nodes: seq<TreeData>)

  /** Every key of a tree-data forest, each entry's before those below it. */
  function AllKeys(f: seq<TreeData>): seq<string>
  {
    if f == [] then []
    else
      var below := match f[0].children
        case Listed(c) => AllKeys(c)
        case Undefined => [];
      [f[0].key] + below + AllKeys(f[1..])
  }

  /** `String(id)` of each item, in order. */
  function IdKeys(ns: seq<Node>): (r: seq<string>)
    ensures |r| == |ns|
    ensures forall k :: 0 <= k < |ns| ==> r[k] == IntToString(ns[k].id)
  {
    if ns == [] then [] else [IntToString(ns[0].id)] + IdKeys(ns[1..])
  }

  lemma {:induction false} IdKeysConcat(a: seq<Node>, b: seq<Node>)
    ensures IdKeys(a + b) == IdKeys(a) + IdKeys(b)
  {
    if a == [] {
      assert a + b == b;
    } else {
      assert (a + b)[1..] == a[1..] + b;
      IdKeysConcat(a[1..], b);
    }
  }

  /** Keys that are the strings of the items' ids name the same item exactly when the ids agree. */
  lemma IdKeysDistinct(ns: seq<Node>, a: nat, b: nat)
    requires a < |ns| && b < |ns|
    ensures Number(IdKeys(ns)[a]) == Num(ns[a].id)
    ensures IdKeys(ns)[a] == IdKeys(ns)[b] <==> ns[a].id == ns[b].id
  {
    NumberOfString(ns[a].id);
    if IdKeys(ns)[a] == IdKeys(ns)[b] {
      IntToStringInjective(ns[a].id, ns[b].id);
    }
  }

  /** How a selected page id tests in `selectedPageId ? ... : ...`: 0 and NaN are falsy. */
  predicate IsSelection(sel: Option<JsNumber>)
  {
    sel.Some? && sel.value.Num? && sel.value.n != 0
  }

  /** `selectedPageId ? [String(selectedPageId)] : []`. */
  function SelectedKeys(sel: Option<JsNumber>): (r: seq<string>)
    ensures |r| <= 1
    ensures r == [] <==> !IsSelection(sel)
    ensures r != [] ==> Number(r[0]) == sel.value
  {
    if IsSelection(sel) then
      NumberOfString(sel.value.n);
      [IntToString(sel.value.n)]
    else []
  }

  /** The id a tree's `onSelect` passes on: `Number(keys[0])`, or nothing for an empty selection. */
  function SelectedId(keys: seq<string>): (r: Option<JsNumber>)
    ensures r.None? <==> keys == []
  {
    if |keys| > 0 then Some(Number(keys[0])) else None
  }

  /** Selecting the highlighted key reports the page that is already selected. */
  lemma SelectionRoundTrip(sel: Option<JsNumber>)
    requires IsSelection(sel)
    ensures SelectedId(SelectedKeys(sel)) == sel
  {
  }
}

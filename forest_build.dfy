/**
 * The loop that turns a room's pages, read in path order, into the nested
 * tree the API returns. `get_page_tree` (pages.py) and `public_room_tree`
 * (public_view.py) run the same loop: a dictionary `tree_nodes` maps each
 * path to the node last created for it, a single-label path starts a new
 * root, and any other node is appended to the `children` list of the node
 * its parent path maps to at that moment, or dropped if there is none.
 *
 * The nodes are Python objects that the dictionary, the root list and the
 * children lists share. The model names each node by the index of its row:
 * `nodeAt` is `tree_nodes`, `kids[j]` is the children list of node j, and
 * the nested answer is assembled from those lists once the loop is done,
 * which is what the shared objects amount to when the response is encoded.
 */
module ForestBuild {
  import opened Common
  import opened LtreePaths
  import opened PageTree
  import opened Ordering

  /** A row of a room's `pages` table. */
  datatype PageRow = PageRow(id: int, title: string, slug: string, content: Option<string>, path: string)

  /** The last row before `n` whose path is `p`: what `tree_nodes[p]` holds after n rows. */
  function LastWithPath(rows: seq<PageRow>, n: nat, p: string): (r: Option<nat>)
    requires n <= |rows|
    ensures r.Some? ==> r.value < n && rows[r.value].path == p
    ensures r.Some? ==> forall k :: r.value < k < n ==> rows[k].path != p
    ensures r.None? ==> forall k :: 0 <= k < n ==> rows[k].path != p
  {
    if n == 0 then None
    else if rows[n - 1].path == p then Some(n - 1)
    else LastWithPath(rows, n - 1, p)
  }

  /** The node row i is appended under, if any: the latest earlier row holding its parent path. */
  function ParentIndex(rows: seq<PageRow>, i: nat): (r: Option<nat>)
    requires i < |rows|
    ensures r.Some? ==> r.value < i && '.' in rows[i].path && rows[r.value].path == ParentOf(rows[i].path)
  {
    if '.' !in rows[i].path then None else LastWithPath(rows, i, ParentOf(rows[i].path))
  }

  /** The rows among the first n whose path has a single label, in row order. */
  function RootsUpTo(rows: seq<PageRow>, n: nat): (r: seq<nat>)
    requires n <= |rows|
    ensures forall k :: 0 <= k < |r| ==> r[k] < n
    ensures forall k, l :: 0 <= k < l < |r| ==> r[k] < r[l]
  {
    if n == 0 then []
    else RootsUpTo(rows, n - 1) + (if '.' !in rows[n - 1].path then [n - 1] else [])
  }

  /** The rows among the first n appended under node j, in row order. */
  function ChildrenUpTo(rows: seq<PageRow>, j: nat, n: nat): (r: seq<nat>)
    requires n <= |rows|
    ensures forall k :: 0 <= k < |r| ==> j < r[k] < n
    ensures forall k, l :: 0 <= k < l < |r| ==> r[k] < r[l]
  {
    if n == 0 then []
    else ChildrenUpTo(rows, j, n - 1) + (if ParentIndex(rows, n - 1) == Some(j) then [n - 1] else [])
  }

  /** Children lists that only point forward, as the loop creates them. */
  predicate ForwardLists(rows: seq<PageRow>, kids: seq<seq<nat>>)
  {
    |kids| == |rows| &&
    forall j, k :: 0 <= j < |kids| && 0 <= k < |kids[j]| ==> j < kids[j][k] < |rows|
  }

  /** The response object for row i once all children lists are complete. */
  function Materialize(rows: seq<PageRow>, kids: seq<seq<nat>>, i: nat, keepContent: bool): (t: Node)
    requires ForwardLists(rows, kids) && i < |rows|
    ensures t.id == rows[i].id && t.title == rows[i].title && t.slug == rows[i].slug && t.path == rows[i].path
    ensures t.content == if keepContent then rows[i].content else None
    ensures |t.children| == |kids[i]|
    ensures forall k :: 0 <= k < |kids[i]| ==> t.children[k] == Materialize(rows, kids, kids[i][k], keepContent)
    decreases |rows| - i
  {
    var r := rows[i];
    Node(r.id, r.title, r.slug, r.path, if keepContent then r.content else None,
         seq(|kids[i]|, k requires 0 <= k < |kids[i]| => Materialize(rows, kids, kids[i][k], keepContent)))
  }

  /** Every node's final children list. */
  function AllChildren(rows: seq<PageRow>): (kids: seq<seq<nat>>)
    ensures ForwardLists(rows, kids)
  {
    seq(|rows|, j requires 0 <= j < |rows| => ChildrenUpTo(rows, j, |rows|))
  }

  /** The forest the endpoint returns for these rows. */
  function Forest(rows: seq<PageRow>, keepContent: bool): (f: seq<Node>)
  {
    var roots := RootsUpTo(rows, |rows|);
    seq(|roots|, k requires 0 <= k < |roots| => Materialize(rows, AllChildren(rows), roots[k], keepContent))
  }

  /** The children lists after `tree_nodes[parent_path].children.append(node i)`, if there is a parent. */
  function Attach(kids: seq<seq<nat>>, at: Option<nat>, i: nat): (r: seq<seq<nat>>)
    ensures |r| == |kids|
  {
    if at.Some? && at.value < |kids| then kids[at.value := kids[at.value] + [i]] else kids
  }

  /**
   * The loop of `get_page_tree` and `public_room_tree`. `keepContent` is true
   * for the authenticated tree, whose items also carry the page content.
   */
  method BuildForest(rows: seq<PageRow>, keepContent: bool) returns (roots: seq<Node>)
    ensures roots == Forest(rows, keepContent)
  {
    var nodeAt: map<string, nat> := map[];
    var kids: seq<seq<nat>> := [];
    var rootIdx: seq<nat> := [];
    var i := 0;
    while i < |rows|
      invariant 0 <= i <= |rows|
      invariant Built(rows, i, nodeAt, kids, rootIdx)
    {
      var path := rows[i].path;
      ghost var before := nodeAt;
      ghost var kidsBefore := kids;
      ghost var rootsBefore := rootIdx;
      nodeAt := nodeAt[path := i];
      var attach: Option<nat> := None;
      var parts := Split(path);
      if |parts| == 1 {
        rootIdx := rootIdx + [i];
      } else {
        var parent := Join(parts[..|parts| - 1]);
        if parent in nodeAt {
          attach := Some(nodeAt[parent]);
        }
      }
      BuildStep(rows, i, before, kidsBefore, rootsBefore);
      kids := Attach(kids + [[]], attach, i);
      i := i + 1;
    }
    assert kids == AllChildren(rows);
    roots := seq(|rootIdx|, k requires 0 <= k < |rootIdx| => Materialize(rows, kids, rootIdx[k], keepContent));
  }

  /**
   * The loop's state after n rows: `tree_nodes` maps each path to its last
   * row so far, and the root and children lists hold what those rows added.
   */
  ghost predicate Built(rows: seq<PageRow>, n: nat, nodeAt: map<string, nat>, kids: seq<seq<nat>>, rootIdx: seq<nat>)
  {
    && n <= |rows| && |kids| == n
    && rootIdx == RootsUpTo(rows, n)
    && (forall j :: 0 <= j < n ==> kids[j] == ChildrenUpTo(rows, j, n))
    && (forall p :: LastWithPath(rows, n, p) == Lookup(nodeAt, p))
  }

  /** One turn of the loop, with the parent looked up after recording row i, keeps `Built`. */
  lemma BuildStep(rows: seq<PageRow>, i: nat, nodeAt: map<string, nat>, kids: seq<seq<nat>>, rootIdx: seq<nat>)
    requires i < |rows| && Built(rows, i, nodeAt, kids, rootIdx)
    ensures var parts := Split(rows[i].path);
            var now := nodeAt[rows[i].path := i];
            var attach := if |parts| == 1 then None else Lookup(now, Join(parts[..|parts| - 1]));
            Built(rows, i + 1, now, Attach(kids + [[]], attach, i),
                  rootIdx + if |parts| == 1 then [i] else [])
  {
    AttachPoint(rows, i, nodeAt);
    RootsStep(rows, i);
    NodeAtStep(rows, i, i + 1, nodeAt, nodeAt[rows[i].path := i]);
    ChildrenStep(rows, i, kids);
  }

  /** What `tree_nodes` holds for a path: the node of that path, if any. */
  function Lookup(nodeAt: map<string, nat>, p: string): Option<nat>
  {
    if p in nodeAt then Some(nodeAt[p]) else None
  }

  /** The parent the loop looks up, after recording row i, is the one `ParentIndex` names. */
  lemma AttachPoint(rows: seq<PageRow>, i: nat, before: map<string, nat>)
    requires i < |rows| && forall p :: LastWithPath(rows, i, p) == Lookup(before, p)
    ensures var parts := Split(rows[i].path);
            ParentIndex(rows, i) ==
              if |parts| == 1 then None
              else Lookup(before[rows[i].path := i], Join(parts[..|parts| - 1]))
  {
    var path := rows[i].path;
    if '.' in path {
      ParentShorter(path);
      assert Lookup(before, ParentOf(path)) == Lookup(before[path := i], ParentOf(path));
    }
  }

  /** Row i joins the roots exactly when its path splits into one label. */
  lemma RootsStep(rows: seq<PageRow>, i: nat)
    requires i < |rows|
    ensures RootsUpTo(rows, i + 1) == RootsUpTo(rows, i) + (if |Split(rows[i].path)| == 1 then [i] else [])
  {
  }

  /** Recording row i under its path keeps `tree_nodes` the last row of each path. */
  lemma NodeAtStep(rows: seq<PageRow>, i: nat, n: nat, before: map<string, nat>, after: map<string, nat>)
    requires i < |rows| && n == i + 1 && after == before[rows[i].path := i]
    requires forall p :: LastWithPath(rows, i, p) == Lookup(before, p)
    ensures forall p :: LastWithPath(rows, n, p) == Lookup(after, p)
  {
  }

  /** One more row extends the children lists exactly as the loop's append does. */
  lemma ChildrenStep(rows: seq<PageRow>, i: nat, kids: seq<seq<nat>>)
    requires i < |rows| && |kids| == i
    requires forall j :: 0 <= j < i ==> kids[j] == ChildrenUpTo(rows, j, i)
    ensures var next := Attach(kids + [[]], ParentIndex(rows, i), i);
      forall j :: 0 <= j <= i ==> next[j] == ChildrenUpTo(rows, j, i + 1)
  {
    var next := Attach(kids + [[]], ParentIndex(rows, i), i);
    forall j | 0 <= j <= i
      ensures next[j] == ChildrenUpTo(rows, j, i + 1)
    {
      if j == i {
        NoChildrenBefore(rows, i, i);
      }
    }
  }

  /** No row before node j, nor j itself, can be its child. */
  lemma {:induction false} NoChildrenBefore(rows: seq<PageRow>, j: nat, n: nat)
    requires n <= |rows| && n <= j + 1
    ensures ChildrenUpTo(rows, j, n) == []
  {
    if n > 0 {
      NoChildrenBefore(rows, j, n - 1);
    }
  }

  /** A row is a root exactly when its path has a single label. */
  lemma {:induction false} RootMember(rows: seq<PageRow>, n: nat, i: nat)
    requires n <= |rows| && i < |rows|
    ensures i in RootsUpTo(rows, n) <==> i < n && '.' !in rows[i].path
  {
    if n > 0 {
      RootMember(rows, n - 1, i);
    }
  }

  /** A row is in node j's children list exactly when j is where its parent path pointed. */
  lemma {:induction false} ChildMember(rows: seq<PageRow>, j: nat, n: nat, i: nat)
    requires n <= |rows| && i < |rows|
    ensures i in ChildrenUpTo(rows, j, n) <==> i < n && ParentIndex(rows, i) == Some(j)
  {
    if n > 0 {
      ChildMember(rows, j, n - 1, i);
    }
  }

  /** A row with a dotted path is attached exactly when some earlier row holds its parent path. */
  lemma AttachedIff(rows: seq<PageRow>, i: nat)
    requires i < |rows| && '.' in rows[i].path
    ensures ParentIndex(rows, i).Some? <==> exists k :: 0 <= k < i && rows[k].path == ParentOf(rows[i].path)
  {
  }

  /**
   * Where row i ends up once the loop is done: a single-label row among the
   * roots only, an attached row in exactly one children list, and an orphan
   * (a dotted path whose parent path no earlier row holds) nowhere.
   */
  lemma Placement(rows: seq<PageRow>, i: nat)
    requires i < |rows|
    ensures '.' !in rows[i].path ==>
      i in RootsUpTo(rows, |rows|) && forall j :: i !in ChildrenUpTo(rows, j, |rows|)
    ensures ParentIndex(rows, i).Some? ==>
      i !in RootsUpTo(rows, |rows|) &&
      forall j :: i in ChildrenUpTo(rows, j, |rows|) <==> j == ParentIndex(rows, i).value
    ensures '.' in rows[i].path && ParentIndex(rows, i).None? ==>
      i !in RootsUpTo(rows, |rows|) && forall j :: i !in ChildrenUpTo(rows, j, |rows|)
  {
    RootMember(rows, |rows|, i);
    forall j {
      ChildMember(rows, j, |rows|, i);
    }
  }

  /**
   * The top level of the answer: one node per single-label row, in row order,
   * each carrying its row's fields and, in order, the nodes of the rows that
   * were appended to it.
   */
  lemma ForestRoots(rows: seq<PageRow>, keepContent: bool, k: nat)
    requires k < |Forest(rows, keepContent)|
    ensures var roots := RootsUpTo(rows, |rows|);
      |Forest(rows, keepContent)| == |roots| &&
      var t := Forest(rows, keepContent)[k];
      var r := rows[roots[k]];
      '.' !in r.path && t.id == r.id && t.title == r.title && t.slug == r.slug && t.path == r.path &&
      t.content == (if keepContent then r.content else None) &&
      |t.children| == |ChildrenUpTo(rows, roots[k], |rows|)| &&
      forall m :: 0 <= m < |t.children| ==>
        t.children[m] == Materialize(rows, AllChildren(rows), ChildrenUpTo(rows, roots[k], |rows|)[m], keepContent)
  {
    var roots := RootsUpTo(rows, |rows|);
    RootMember(rows, |rows|, roots[k]);
  }

  lemma ParentShorter(path: string)
    requires '.' in path
    ensures |ParentOf(path)| < |path|
  {
    ParentAndLabel(path);
  }

  /** The sort key of `ORDER BY path`: the path's labels. */
  function PathKey(row: PageRow): seq<string>
  {
    Split(row.path)
  }

  /** In path order, a row holding a page's parent path comes before that page. */
  lemma ParentEarlier(rows: seq<PageRow>, i: nat, k: nat)
    requires SortedBy(rows, PathKey) && i < |rows| && k < |rows|
    requires '.' in rows[i].path && rows[k].path == ParentOf(rows[i].path)
    ensures k < i
  {
    var p := rows[i].path;
    ParentLabels(p);
    PrefixLess(Split(ParentOf(p)), Split(p));
    LabelsIrreflexive(Split(p));
  }

  /**
   * Read in path order, as both endpoints read them, a page is dropped only
   * when no page at all holds its parent path.
   */
  lemma OrderedAttach(rows: seq<PageRow>, i: nat)
    requires SortedBy(rows, PathKey) && i < |rows| && '.' in rows[i].path
    ensures ParentIndex(rows, i).Some? <==>
              exists k :: 0 <= k < |rows| && rows[k].path == ParentOf(rows[i].path)
  {
    AttachedIff(rows, i);
    forall k | 0 <= k < |rows| && rows[k].path == ParentOf(rows[i].path) ensures k < i {
      ParentEarlier(rows, i, k);
    }
  }
}

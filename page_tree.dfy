/**
 * The page tree that `GET /pages/tree` and `GET /public/{slug}/tree` return
 * (`PageTreeItem` on both sides of the wire) and its pre-order listing, which
 * the client's three flatteners produce.
 */
module PageTree {
  import opened Common

  /**
   * One tree item: the page's fields and the items under it. `content` is
   * present only in the authenticated tree, whose items are full page
   * responses.
   */
  datatype Node = Node(id: int, title: string, slug: string, path: string,
                       content: Option<string>, children: seq<Node>)

  /** The number of items in a forest, counting every level. */
  function Size(f: seq<Node>): nat
  {
    if f == [] then 0 else 1 + Size(f[0].children) + Size(f[1..])
  }

  /** Every item of a forest, each followed by the items under it. */
  function PreOrder(f: seq<Node>): (r: seq<Node>)
    ensures |r| == Size(f)
  {
    if f == [] then [] else [f[0]] + PreOrder(f[0].children) + PreOrder(f[1..])
  }

  /** The items under one root are fewer than the items of its forest. */
  lemma ChildrenSmaller(f: seq<Node>, k: nat)
    requires k < |f|
    ensures Size(f[k].children) < Size(f)
  {
    assert f == f[..k] + f[k..];
    SizeConcat(f[..k], f[k..]);
    assert f[k..][0] == f[k];
  }

  lemma {:induction false} SizeConcat(a: seq<Node>, b: seq<Node>)
    ensures Size(a + b) == Size(a) + Size(b)
  {
    if a != [] {
      assert (a + b)[0] == a[0] && (a + b)[1..] == a[1..] + b;
      SizeConcat(a[1..], b);
    } else {
      assert a + b == b;
    }
  }

  /** Listing two forests one after the other lists each in turn. */
  lemma {:induction false} PreOrderConcat(a: seq<Node>, b: seq<Node>)
    ensures PreOrder(a + b) == PreOrder(a) + PreOrder(b)
  {
    if a != [] {
      var x := a + b;
      assert x[0] == a[0] && x[1..] == a[1..] + b;
      var c := PreOrder(a[0].children);
      assert PreOrder(x) == [a[0]] + c + PreOrder(a[1..] + b);
      PreOrderConcat(a[1..], b);
      Regroup([a[0]] + c, PreOrder(a[1..]), PreOrder(b));
    } else {
      assert a + b == b;
    }
  }

  lemma Regroup<T>(h: seq<T>, r: seq<T>, q: seq<T>)
    ensures h + (r + q) == (h + r) + q
  {
  }

  /** Listing one more root appends that root and then its descendants. */
  lemma PreOrderSnoc(f: seq<Node>, t: Node)
    ensures PreOrder(f + [t]) == PreOrder(f) + [t] + PreOrder(t.children)
  {
    PreOrderConcat(f, [t]);
    assert [t][1..] == [];
    assert PreOrder([t]) == [t] + PreOrder(t.children) + [];
    assert [t] + PreOrder(t.children) + [] == [t] + PreOrder(t.children);
    Regroup(PreOrder(f), [t], PreOrder(t.children));
  }

  /**
   * The k-th root sits after the items of the roots before it, so roots are
   * listed in their order.
   */
  lemma {:induction false} RootPosition(f: seq<Node>, k: nat)
    requires k < |f|
    ensures Size(f[..k]) < |PreOrder(f)|
    ensures PreOrder(f)[Size(f[..k])] == f[k]
  {
    assert f == f[..k] + f[k..];
    PreOrderConcat(f[..k], f[k..]);
    SizeConcat(f[..k], f[k..]);
    assert f[k..][0] == f[k];
  }

  /**
   * Each listed item is followed directly by exactly the items under it, in
   * their own pre-order: parents come before their descendants and every
   * subtree is listed once, in one block.
   */
  lemma {:induction false} SubtreeFollows(f: seq<Node>, i: nat, t: Node)
    requires i < |PreOrder(f)| && PreOrder(f)[i] == t
    ensures i + 1 + Size(t.children) <= |PreOrder(f)|
    ensures PreOrder(f)[i + 1..i + 1 + Size(t.children)] == PreOrder(t.children)
    decreases Size(f), 1
  {
    if i == 0 {
      FirstSubtree(f);
    } else if i <= Size(f[0].children) {
      SubtreeInFirst(f, i, t);
    } else {
      SubtreeInRest(f, i, t);
    }
  }

  lemma FirstSubtree(f: seq<Node>)
    requires f != []
    ensures 1 + Size(f[0].children) <= |PreOrder(f)|
    ensures PreOrder(f)[0] == f[0]
    ensures PreOrder(f)[1..1 + Size(f[0].children)] == PreOrder(f[0].children)
  {
    var below, rest := PreOrder(f[0].children), PreOrder(f[1..]);
    var head := [f[0]] + below;
    assert PreOrder(f) == head + rest;
    SliceLeft(head, rest, 1, |head|);
    assert head[1..] == below;
  }

  /** The step for an item under the first root. */
  lemma {:induction false} SubtreeInFirst(f: seq<Node>, i: nat, t: Node)
    requires f != [] && 1 <= i <= Size(f[0].children) && PreOrder(f)[i] == t
    ensures i + 1 + Size(t.children) <= |PreOrder(f)|
    ensures PreOrder(f)[i + 1..i + 1 + Size(t.children)] == PreOrder(t.children)
    decreases Size(f), 0
  {
    var j := i - 1;
    InFirst(f, i);
    SubtreeFollows(f[0].children, j, t);
    BlockWithin(PreOrder(f), f[0], PreOrder(f[0].children), PreOrder(f[1..]), i, j,
                Size(t.children), PreOrder(t.children));
  }

  /** The step for an item under a later root. */
  lemma {:induction false} SubtreeInRest(f: seq<Node>, i: nat, t: Node)
    requires f != [] && 1 + Size(f[0].children) <= i < |PreOrder(f)| && PreOrder(f)[i] == t
    ensures i + 1 + Size(t.children) <= |PreOrder(f)|
    ensures PreOrder(f)[i + 1..i + 1 + Size(t.children)] == PreOrder(t.children)
    decreases Size(f), 0
  {
    var j := i - 1 - Size(f[0].children);
    InRest(f, i);
    SubtreeFollows(f[1..], j, t);
    BlockAfter(PreOrder(f), f[0], PreOrder(f[0].children), PreOrder(f[1..]), i, j,
               Size(t.children), PreOrder(t.children));
  }

  /** Positions 1 to the first root's size list the first root's descendants. */
  lemma InFirst(f: seq<Node>, i: nat)
    requires f != [] && 1 <= i <= Size(f[0].children)
    ensures i - 1 < |PreOrder(f[0].children)| && PreOrder(f)[i] == PreOrder(f[0].children)[i - 1]
    ensures Size(f[0].children) < Size(f)
  {
    var a, b := PreOrder(f[0].children), PreOrder(f[1..]);
    assert PreOrder(f) == [f[0]] + a + b;
    SliceInMiddle(f[0], a, b, i, 0);
  }

  /** A block of the middle part of `[h] + a + b`, found by position. */
  lemma BlockWithin<T>(p: seq<T>, h: T, a: seq<T>, b: seq<T>, i: nat, j: nat, n: nat, block: seq<T>)
    requires p == [h] + a + b && i == j + 1 && j + 1 + n <= |a| && a[j + 1..j + 1 + n] == block
    ensures i + 1 + n <= |p| && p[i + 1..i + 1 + n] == block
  {
    SliceInMiddle(h, a, b, i, n);
  }

  /** Later positions list the items of the later roots. */
  lemma InRest(f: seq<Node>, i: nat)
    requires f != [] && 1 + Size(f[0].children) <= i < |PreOrder(f)|
    ensures i - 1 - Size(f[0].children) < |PreOrder(f[1..])|
    ensures PreOrder(f)[i] == PreOrder(f[1..])[i - 1 - Size(f[0].children)]
    ensures Size(f[1..]) < Size(f)
  {
    var a, b := PreOrder(f[0].children), PreOrder(f[1..]);
    assert PreOrder(f) == [f[0]] + a + b;
    SliceAfter(f[0], a, b, i, 0);
  }

  /** A block of the last part of `[h] + a + b`, found by position. */
  lemma BlockAfter<T>(p: seq<T>, h: T, a: seq<T>, b: seq<T>, i: nat, j: nat, n: nat, block: seq<T>)
    requires p == [h] + a + b && i == j + 1 + |a| && j + 1 + n <= |b| && b[j + 1..j + 1 + n] == block
    ensures i + 1 + n <= |p| && p[i + 1..i + 1 + n] == block
  {
    SliceAfter(h, a, b, i, n);
  }

  lemma SliceAfter<T>(h: T, a: seq<T>, b: seq<T>, i: nat, n: nat)
    requires 1 + |a| <= i && i - |a| + n <= |b|
    ensures ([h] + a + b)[i] == b[i - 1 - |a|]
    ensures ([h] + a + b)[i + 1..i + 1 + n] == b[i - |a|..i - |a| + n]
  {
  }

  lemma SliceInMiddle<T>(h: T, a: seq<T>, b: seq<T>, i: nat, n: nat)
    requires 1 <= i && i + n <= |a|
    ensures ([h] + a + b)[i] == a[i - 1]
    ensures ([h] + a + b)[i + 1..i + 1 + n] == a[i..i + n]
  {
  }

  lemma SliceLeft<T>(a: seq<T>, b: seq<T>, lo: nat, hi: nat)
    requires lo <= hi <= |a|
    ensures (a + b)[lo..hi] == a[lo..hi]
  {
  }

  lemma SliceRight<T>(a: seq<T>, b: seq<T>, lo: nat, hi: nat)
    requires |a| <= lo <= hi <= |a| + |b|
    ensures (a + b)[lo..hi] == b[lo - |a|..hi - |a|]
  {
  }
}

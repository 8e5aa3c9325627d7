/**
 * Page paths are PostgreSQL `ltree` labels joined with '.': the root page
 * `docs` has path "docs", its child `setup` has path "docs.setup". Both the
 * server (Python `str.split('.')`, `'.'.join`) and the client
 * (`split('.')`, `join('.')`) take them apart and put them back together.
 */
module LtreePaths {

  /** `s.split('.')`: the dot-free segments of `s`, never an empty list. */
  function Split(s: string): (r: seq<string>)
    ensures |r| >= 1
    ensures forall i :: 0 <= i < |r| ==> '.' !in r[i]
    ensures |r| == 1 <==> '.' !in s
  {
    if s == [] then [[]]
    else
      var rest := Split(s[..|s| - 1]);
      assert s == s[..|s| - 1] + [s[|s| - 1]];
      if s[|s| - 1] == '.' then rest + [[]]
      else rest[..|rest| - 1] + [rest[|rest| - 1] + [s[|s| - 1]]]
  }

  /** `'.'.join(parts)`. */
  function Join(parts: seq<string>): string
    requires |parts| >= 1
  {
    if |parts| == 1 then parts[0] else Join(parts[..|parts| - 1]) + "." + parts[|parts| - 1]
  }

  /** Splitting at the dots and joining with dots gives the path back. */
  lemma {:induction false} JoinSplit(s: string)
    ensures Join(Split(s)) == s
  {
    if s != [] {
      var p, c := s[..|s| - 1], s[|s| - 1];
      assert s == p + [c];
      var rest := Split(p);
      var k := |rest|;
      JoinSplit(p);
      var r := Split(s);
      if c == '.' {
        assert r == rest + [[]];
        assert r[..|r| - 1] == rest;
      } else if k == 1 {
        assert r == [rest[0] + [c]];
      } else {
        assert r == rest[..k - 1] + [rest[k - 1] + [c]];
        assert r[..|r| - 1] == rest[..k - 1];
        assert Join(rest) == Join(rest[..k - 1]) + "." + rest[k - 1];
      }
    }
  }

  /** Appending a dot and a dot-free segment appends exactly one segment. */
  lemma {:induction false} SplitAppend(p: string, seg: string)
    requires '.' !in seg
    ensures Split(p + "." + seg) == Split(p) + [seg]
  {
    var s := p + "." + seg;
    if seg == [] {
      assert s == p + ['.'];
      SplitSnocDot(p);
    } else {
      var t, c := seg[..|seg| - 1], seg[|seg| - 1];
      assert c != '.' by { assert seg[|seg| - 1] in seg; }
      assert '.' !in t by {
        forall i | 0 <= i < |t| ensures t[i] != '.' { assert t[i] == seg[i]; }
      }
      SplitAppend(p, t);
      assert s == (p + "." + t) + [c];
      SplitSnoc(p + "." + t, c);
      assert t + [c] == seg;
    }
  }

  /** A dot at the end opens a new, empty segment. */
  lemma SplitSnocDot(q: string)
    ensures Split(q + ['.']) == Split(q) + [[]]
  {
    var s := q + ['.'];
    assert s[..|s| - 1] == q;
  }

  /** Any other character at the end extends the last segment. */
  lemma SplitSnoc(q: string, c: char)
    requires c != '.'
    ensures var r := Split(q); Split(q + [c]) == r[..|r| - 1] + [r[|r| - 1] + [c]]
  {
    var s := q + [c];
    assert s[..|s| - 1] == q;
  }

  /** The number of labels of a path, as `len(path.split('.'))`. */
  function Depth(path: string): (d: nat)
    ensures d >= 1
  {
    |Split(path)|
  }

  /** The path minus its last label: `'.'.join(parts[:-1])`. */
  function ParentOf(path: string): string
    requires '.' in path
  {
    var parts := Split(path);
    Join(parts[..|parts| - 1])
  }

  /** The last label of a path. */
  function LastLabel(path: string): (r: string)
    ensures '.' !in r
  {
    var parts := Split(path);
    parts[|parts| - 1]
  }

  /** A path with a dot is its parent path, a dot and its last label. */
  lemma ParentAndLabel(path: string)
    requires '.' in path
    ensures path == ParentOf(path) + "." + LastLabel(path)
  {
    JoinSplit(path);
  }

  /** The parent of `p + "." + label` is `p`, one label shallower. */
  lemma ParentOfChild(p: string, lbl: string)
    requires '.' !in lbl
    ensures '.' in p + "." + lbl
    ensures ParentOf(p + "." + lbl) == p && LastLabel(p + "." + lbl) == lbl
    ensures Depth(p + "." + lbl) == Depth(p) + 1
  {
    assert (p + "." + lbl)[|p|] == '.';
    SplitAppend(p, lbl);
    var parts := Split(p + "." + lbl);
    assert parts[..|parts| - 1] == Split(p);
    JoinSplit(p);
  }

  /** The parent's labels are the path's labels without the last one. */
  lemma ParentLabels(path: string)
    requires '.' in path
    ensures Split(ParentOf(path)) == Split(path)[..|Split(path)| - 1]
  {
    ParentAndLabel(path);
    SplitAppend(ParentOf(path), LastLabel(path));
  }
}

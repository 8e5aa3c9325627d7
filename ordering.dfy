/**
 * The orders PostgreSQL sorts by in the queries the endpoints issue:
 * `ORDER BY name` on room names and `ORDER BY path` on `ltree` page paths.
 * Strings compare character by character (the "C" collation); an `ltree`
 * compares its labels in turn, and a path that is a proper label prefix of
 * another sorts first. Both are written as one order on label sequences: a
 * room name is a one-label key.
 */
module Ordering {

  /** `a < b` character by character; a proper prefix is smaller. */
  predicate StrLess(a: string, b: string)
  {
    if a == [] then b != []
    else if b == [] then false
    else if a[0] == b[0] then StrLess(a[1..], b[1..])
    else a[0] < b[0]
  }

  /** Label sequences compared label by label with `StrLess`. */
  predicate LabelsLess(x: seq<string>, y: seq<string>)
  {
    if x == [] then y != []
    else if y == [] then false
    else if x[0] == y[0] then LabelsLess(x[1..], y[1..])
    else StrLess(x[0], y[0])
  }

  lemma {:induction false} StrIrreflexive(a: string)
    ensures !StrLess(a, a)
  {
    if a != [] { StrIrreflexive(a[1..]); }
  }

  lemma {:induction false} StrTotal(a: string, b: string)
    ensures a == b || StrLess(a, b) || StrLess(b, a)
  {
    if a != [] && b != [] && a[0] == b[0] {
      StrTotal(a[1..], b[1..]);
      if a[1..] == b[1..] {
        assert a == [a[0]] + a[1..] && b == [b[0]] + b[1..];
      }
    }
  }

  lemma {:induction false} StrTransitive(a: string, b: string, c: string)
    requires StrLess(a, b) && StrLess(b, c)
    ensures StrLess(a, c)
  {
    if a != [] && a[0] == b[0] && b[0] == c[0] {
      StrTransitive(a[1..], b[1..], c[1..]);
    }
  }

  lemma {:induction false} LabelsIrreflexive(x: seq<string>)
    ensures !LabelsLess(x, x)
  {
    if x != [] { LabelsIrreflexive(x[1..]); }
  }

  lemma {:induction false} LabelsTotal(x: seq<string>, y: seq<string>)
    ensures x == y || LabelsLess(x, y) || LabelsLess(y, x)
  {
    if x != [] && y != [] {
      if x[0] == y[0] {
        LabelsTotal(x[1..], y[1..]);
        if x[1..] == y[1..] {
          assert x == [x[0]] + x[1..] && y == [y[0]] + y[1..];
        }
      } else {
        StrTotal(x[0], y[0]);
      }
    }
  }

  lemma {:induction false} StrAsymmetric(a: string, b: string)
    requires StrLess(a, b)
    ensures !StrLess(b, a)
  {
    if a != [] && a[0] == b[0] { StrAsymmetric(a[1..], b[1..]); }
  }

  lemma {:induction false} LabelsAsymmetric(x: seq<string>, y: seq<string>)
    requires LabelsLess(x, y)
    ensures !LabelsLess(y, x)
  {
    if x != [] {
      if x[0] == y[0] { LabelsAsymmetric(x[1..], y[1..]); } else { StrAsymmetric(x[0], y[0]); }
    }
  }

  lemma {:induction false} LabelsTransitive(x: seq<string>, y: seq<string>, z: seq<string>)
    requires LabelsLess(x, y) && LabelsLess(y, z)
    ensures LabelsLess(x, z)
  {
    if x != [] {
      if x[0] == y[0] && y[0] == z[0] {
        LabelsTransitive(x[1..], y[1..], z[1..]);
      } else if x[0] != y[0] && y[0] != z[0] {
        StrTransitive(x[0], y[0], z[0]);
        StrIrreflexive(x[0]);
      }
    }
  }

  /** Not-smaller is transitive: with a total order, `z < x` puts `y` between them. */
  lemma NotLessTransitive(x: seq<string>, y: seq<string>, z: seq<string>)
    requires !LabelsLess(y, x) && !LabelsLess(z, y)
    ensures !LabelsLess(z, x)
  {
    if x != y && y != z {
      LabelsTotal(x, y);
      LabelsTotal(y, z);
      LabelsTransitive(x, y, z);
      LabelsAsymmetric(x, z);
    }
  }

  /** A proper prefix sorts before the sequence it starts: a parent before its child. */
  lemma {:induction false} PrefixLess(x: seq<string>, y: seq<string>)
    requires |x| < |y| && x == y[..|x|]
    ensures LabelsLess(x, y)
  {
    if x != [] {
      assert x[1..] == y[1..][..|x| - 1];
      PrefixLess(x[1..], y[1..]);
    }
  }

  /** `s` is in non-decreasing key order: no later element sorts before an earlier one. */
  predicate SortedBy<T>(s: seq<T>, key: T -> seq<string>)
  {
    forall i, j :: 0 <= i < j < |s| ==> !LabelsLess(key(s[j]), key(s[i]))
  }

  /** Inserts `x` before the first element that does not sort before it. */
  function Insert<T>(x: T, s: seq<T>, key: T -> seq<string>): (r: seq<T>)
    ensures multiset(r) == multiset(s) + multiset{x}
    ensures |r| == |s| + 1
  {
    if s == [] || !LabelsLess(key(s[0]), key(x)) then [x] + s
    else
      assert s == [s[0]] + s[1..];
      [s[0]] + Insert(x, s[1..], key)
  }

  /** The rows of a query with an `ORDER BY` on `key`, equal keys in their stored order. */
  function SortBy<T>(s: seq<T>, key: T -> seq<string>): (r: seq<T>)
    ensures multiset(r) == multiset(s)
    ensures |r| == |s|
  {
    if s == [] then []
    else
      assert s == [s[0]] + s[1..];
      Insert(s[0], SortBy(s[1..], key), key)
  }

  lemma {:induction false} InsertSorted<T>(x: T, s: seq<T>, key: T -> seq<string>)
    requires SortedBy(s, key)
    ensures SortedBy(Insert(x, s, key), key)
  {
    var r := Insert(x, s, key);
    if s == [] {
    } else if !LabelsLess(key(s[0]), key(x)) {
      forall i, j | 0 <= i < j < |r| ensures !LabelsLess(key(r[j]), key(r[i])) {
        if i == 0 {
          assert r[j] == s[j - 1];
          if j > 1 {
            assert !LabelsLess(key(s[j - 1]), key(s[0]));
            NotLessTransitive(key(x), key(s[0]), key(s[j - 1]));
          }
        } else {
          assert r[i] == s[i - 1] && r[j] == s[j - 1];
        }
      }
    } else {
      var t := s[1..];
      InsertSorted(x, t, key);
      var u := Insert(x, t, key);
      assert r == [s[0]] + u;
      forall i, j | 0 <= i < j < |r| ensures !LabelsLess(key(r[j]), key(r[i])) {
        if i == 0 {
          var y := u[j - 1];
          assert y in multiset(u);
          if y == x {
            LabelsAsymmetric(key(s[0]), key(x));
          } else {
            assert y in multiset(t);
            var k :| 0 <= k < |t| && t[k] == y;
            assert s[k + 1] == y;
          }
        } else {
          assert r[i] == u[i - 1] && r[j] == u[j - 1];
        }
      }
    }
  }

  lemma {:induction false} SortBySorted<T>(s: seq<T>, key: T -> seq<string>)
    ensures SortedBy(SortBy(s, key), key)
  {
    if s != [] {
      SortBySorted(s[1..], key);
      InsertSorted(s[0], SortBy(s[1..], key), key);
    }
  }
}

/**
 * The data rules of the page editor (frontend/src/components/Editor.tsx):
 * heading anchors and the table of contents built on every update, the
 * parent path and parent choices of the settings dialog, the page list
 * `walk` collects for it, and the title heading put in front of loaded
 * content.
 */
module Editor {
  import opened Common
  import opened Text
  import opened JsNumbers
  import opened LtreePaths
  import opened PageTree

  // ------------------------------------------------------------- slugify

  /** The leading run of characters that are neither letters nor digits, dropped. */
  function DropSeparators(s: string): (r: string)
    ensures |r| <= |s| && r == s[|s| - |r|..]
    ensures r == [] || IsLetterOrDigit(r[0])
  {
    if s != [] && !IsLetterOrDigit(s[0]) then
      var r := DropSeparators(s[1..]);
      assert s[1..][|s| - 1 - |r|..] == s[|s| - |r|..];
      r
    else s
  }

  /** `.replace(/[^\p{L}\p{N}]+/gu, '-')`: each run of other characters becomes one '-'. */
  function Dashify(s: string): (r: string)
    ensures |r| <= |s|
    decreases |s|
  {
    if s == [] then []
    else if IsLetterOrDigit(s[0]) then [s[0]] + Dashify(s[1..])
    else "-" + Dashify(DropSeparators(s[1..]))
  }

  /** A dash comes first only for a separator first. */
  lemma DashifyHead(s: string)
    ensures Dashify(s) != [] && Dashify(s)[0] == '-' ==> s != [] && !IsLetterOrDigit(s[0])
  {
  }

  /** Only letters and digits of the input, and dashes, come out. */
  lemma {:induction false} DashifyChars(s: string)
    ensures forall c :: c in Dashify(s) ==> (IsLetterOrDigit(c) && c in s) || c == '-'
    decreases |s|
  {
    if s != [] {
      if IsLetterOrDigit(s[0]) {
        DashifyChars(s[1..]);
        assert Dashify(s) == [s[0]] + Dashify(s[1..]);
        assert forall c :: c in s[1..] ==> c in s;
      } else {
        var d := DropSeparators(s[1..]);
        DashifyChars(d);
        assert Dashify(s) == "-" + Dashify(d);
        assert d == s[|s| - |d|..];
        assert forall c :: c in d ==> c in s;
      }
    }
  }

  /** Every run of separators leaves exactly one dash, so no two dashes are adjacent. */
  lemma {:induction false} DashifySingleDashes(s: string)
    ensures NoDoubleDash(Dashify(s))
    decreases |s|
  {
    if s != [] {
      var r := Dashify(s);
      var t: string;
      if IsLetterOrDigit(s[0]) {
        t := Dashify(s[1..]);
        DashifySingleDashes(s[1..]);
        assert r == [s[0]] + t;
      } else {
        var d := DropSeparators(s[1..]);
        t := Dashify(d);
        DashifySingleDashes(d);
        DashifyHead(d);
        assert r == "-" + t;
        assert t == [] || t[0] != '-';
      }
      forall i | 0 <= i < |r| - 1 ensures !(r[i] == '-' && r[i + 1] == '-') {
        if i > 0 {
          assert r[i] == t[i - 1] && r[i + 1] == t[i];
        }
      }
    }
  }

  predicate NoDoubleDash(s: string)
  {
    forall i :: 0 <= i < |s| - 1 ==> !(s[i] == '-' && s[i + 1] == '-')
  }

  /** `.replace(/^-+|-+$/g, '')`. */
  function TrimDashes(s: string): (r: string)
    ensures |r| <= |s|
    ensures r == [] || (r[0] != '-' && r[|r| - 1] != '-')
  {
    if s == [] then []
    else if s[0] == '-' then TrimDashes(s[1..])
    else if s[|s| - 1] == '-' then TrimDashes(s[..|s| - 1])
    else s
  }

  /** What `slugify` returns: never empty, letters, digits and single inner dashes. */
  predicate IsAnchor(s: string)
  {
    s != [] && s[0] != '-' && s[|s| - 1] != '-' && NoDoubleDash(s) &&
    forall c :: c in s ==> IsLetterOrDigit(c) || c == '-'
  }

  /** `slugify(text)`: the anchor of a heading, "heading" when nothing is left. */
  function Slugify(text: string): (r: string)
    ensures IsAnchor(r)
    ensures forall c :: c in r ==> !IsUpper(c)
  {
    var t := TrimDashes(Dashify(LowerStr(text)));
    if t == [] then
      HeadingIsAnchor();
      "heading"
    else
      TrimmedIsAnchor(text);
      t
  }

  lemma HeadingIsAnchor()
    ensures IsAnchor("heading") && forall c :: c in "heading" ==> !IsUpper(c)
  {
    var h := "heading";
    assert forall i :: 0 <= i < |h| ==> 'a' <= h[i] <= 'z';
    forall c | c in h ensures 'a' <= c <= 'z' {
      var i :| 0 <= i < |h| && h[i] == c;
    }
  }

  /** What is left after trimming the dashes, when anything is, is an anchor in lower case. */
  lemma TrimmedIsAnchor(text: string)
    requires TrimDashes(Dashify(LowerStr(text))) != []
    ensures IsAnchor(TrimDashes(Dashify(LowerStr(text))))
    ensures forall c :: c in TrimDashes(Dashify(LowerStr(text))) ==> !IsUpper(c)
  {
    var l := LowerStr(text);
    var d := Dashify(l);
    var t := TrimDashes(d);
    DashifyChars(l);
    DashifySingleDashes(l);
    TrimKeepsShape(d);
    forall c | c in t ensures (IsLetterOrDigit(c) || c == '-') && !IsUpper(c) {
      assert c in d;
    }
  }

  /** Trimming dashes keeps a string's characters and single dashes. */
  lemma {:induction false} TrimKeepsShape(s: string)
    requires NoDoubleDash(s)
    ensures NoDoubleDash(TrimDashes(s))
    ensures forall c :: c in TrimDashes(s) ==> c in s
  {
    if s != [] {
      if s[0] == '-' {
        TrimKeepsShape(s[1..]);
      } else if s[|s| - 1] == '-' {
        TrimKeepsShape(s[..|s| - 1]);
      }
    }
  }

  /** The letters and digits of a string, in order. */
  function Alnum(s: string): (r: string)
  {
    if s == [] then [] else (if IsLetterOrDigit(s[0]) then [s[0]] else []) + Alnum(s[1..])
  }

  lemma {:induction false} AlnumDropSeparators(s: string)
    ensures Alnum(DropSeparators(s)) == Alnum(s)
  {
    if s != [] && !IsLetterOrDigit(s[0]) {
      AlnumDropSeparators(s[1..]);
    }
  }

  lemma {:induction false} AlnumDashify(s: string)
    ensures Alnum(Dashify(s)) == Alnum(s)
    decreases |s|
  {
    if s != [] {
      if IsLetterOrDigit(s[0]) {
        AlnumDashify(s[1..]);
        assert ([s[0]] + Dashify(s[1..]))[1..] == Dashify(s[1..]);
      } else {
        AlnumDropSeparators(s[1..]);
        AlnumDashify(DropSeparators(s[1..]));
        assert ("-" + Dashify(DropSeparators(s[1..])))[1..] == Dashify(DropSeparators(s[1..]));
      }
    }
  }

  lemma {:induction false} AlnumConcat(a: string, b: string)
    ensures Alnum(a + b) == Alnum(a) + Alnum(b)
  {
    if a == [] {
      assert a + b == b;
    } else {
      var head := if IsLetterOrDigit(a[0]) then [a[0]] else [];
      assert (a + b)[0] == a[0];
      assert (a + b)[1..] == a[1..] + b;
      assert Alnum(a + b) == head + Alnum(a[1..] + b);
      AlnumConcat(a[1..], b);
      assert Alnum(a) == head + Alnum(a[1..]);
      assert head + (Alnum(a[1..]) + Alnum(b)) == (head + Alnum(a[1..])) + Alnum(b);
    }
  }

  lemma {:induction false} AlnumTrimDashes(s: string)
    ensures Alnum(TrimDashes(s)) == Alnum(s)
  {
    if s != [] {
      if s[0] == '-' {
        assert Alnum(s) == Alnum(s[1..]);
        AlnumTrimDashes(s[1..]);
      } else if s[|s| - 1] == '-' {
        var p := s[..|s| - 1];
        assert TrimDashes(s) == TrimDashes(p);
        AlnumTrimDashes(p);
        SplitLast(s);
        AlnumConcat(p, [s[|s| - 1]]);
        AlnumDash(s[|s| - 1]);
      }
    }
  }

  lemma AlnumDash(c: char)
    requires c == '-'
    ensures Alnum([c]) == []
  {
    assert [c][1..] == [];
  }

  lemma SplitLast<T>(s: seq<T>)
    requires s != []
    ensures s == s[..|s| - 1] + [s[|s| - 1]]
  {
  }

  /**
   * The anchor keeps exactly the lower-cased letters and digits of the
   * heading, in order; with none of them it is "heading".
   */
  lemma SlugifyKeepsLetters(text: string)
    ensures Alnum(LowerStr(text)) != [] ==> Alnum(Slugify(text)) == Alnum(LowerStr(text))
    ensures Alnum(LowerStr(text)) == [] ==> Slugify(text) == "heading"
  {
    var d := Dashify(LowerStr(text));
    AlnumDashify(LowerStr(text));
    AlnumTrimDashes(d);
    if Alnum(LowerStr(text)) == [] {
      AlnumAllDashes(TrimDashes(d));
    }
  }

  /** A string of letters, digits and dashes with no letter or digit trims to nothing. */
  lemma {:induction false} AlnumAllDashes(s: string)
    requires forall c :: c in s ==> IsLetterOrDigit(c) || c == '-'
    requires Alnum(s) == []
    requires s == [] || (s[0] != '-' && s[|s| - 1] != '-')
    ensures s == []
  {
  }

  predicate AnchorChars(s: string)
  {
    forall i :: 0 <= i < |s| ==> IsLetterOrDigit(s[i]) || s[i] == '-'
  }

  lemma DashifyLetterHead(s: string)
    requires s != [] && IsLetterOrDigit(s[0])
    ensures Dashify(s) == [s[0]] + Dashify(s[1..])
  {
  }

  lemma DashifyDashHead(t: string)
    requires t != [] && t[0] == '-' && (|t| == 1 || IsLetterOrDigit(t[1]))
    ensures Dashify(t) == "-" + Dashify(t[1..])
  {
    var u := t[1..];
    assert u == [] || IsLetterOrDigit(u[0]);
    assert DropSeparators(u) == u;
  }

  /** A suffix of letters, digits and single dashes is one too. */
  lemma AnchorCharsSuffix(s: string, n: nat)
    requires NoDoubleDash(s) && AnchorChars(s) && n <= |s|
    ensures NoDoubleDash(s[n..]) && AnchorChars(s[n..])
  {
    forall i | 0 <= i < |s| - n ensures s[n..][i] == s[n + i] {
    }
  }

  /** Letters, digits and single dashes, starting with a letter or digit, are left as they are. */
  lemma {:induction false} DashifyAnchorChars(s: string)
    requires NoDoubleDash(s) && AnchorChars(s)
    requires s == [] || IsLetterOrDigit(s[0])
    ensures Dashify(s) == s
    decreases |s|
  {
    if s != [] {
      var t := s[1..];
      DashifyLetterHead(s);
      assert s == [s[0]] + t;
      if t != [] && t[0] == '-' {
        var u := t[1..];
        assert |s| >= 2 && s[1] == '-';
        assert |s| == 2 || IsLetterOrDigit(s[2]) by {
          if |s| > 2 {
            assert !(s[1] == '-' && s[2] == '-');
          }
        }
        assert u == s[2..];
        AnchorCharsSuffix(s, 2);
        DashifyAnchorChars(u);
        DashifyDashHead(t);
        assert t == "-" + u;
      } else {
        AnchorCharsSuffix(s, 1);
        DashifyAnchorChars(t);
      }
    }
  }

  /** An anchor is its own anchor, so `slugify` is idempotent. */
  lemma SlugifyIdempotent(text: string)
    ensures Slugify(Slugify(text)) == Slugify(text)
  {
    SlugOfSlug(Slugify(text));
  }

  // --------------------------------------------------- heading anchors and TOC

  /** A heading node of the document: its level and its text content. */
  datatype Heading = Heading(level: int, text: string)

  /** A table-of-contents entry. The source also compares a `pos` that no entry ever has. */
  datatype TocItem = TocItem(level: int, text: string, id: string)

  /** How many entries of `s` equal `b`. */
  function CountOf(s: seq<string>, b: string): (n: nat)
    ensures n <= |s|
  {
    if s == [] then 0 else CountOf(s[..|s| - 1], b) + (if s[|s| - 1] == b then 1 else 0)
  }

  function BaseSlugs(hs: seq<Heading>): (r: seq<string>)
    ensures |r| == |hs| && forall i :: 0 <= i < |hs| ==> r[i] == Slugify(hs[i].text)
  {
    seq(|hs|, i requires 0 <= i < |hs| => Slugify(hs[i].text))
  }

  /**
   * The one key an empty JavaScript object already answers that `slugify`
   * can produce: `constructor`, inherited from `Object.prototype`. Every
   * other inherited name has a capital or an underscore.
   */
  const InheritedSlug := "constructor"

  /**
   * The anchor of the i-th heading: its base slug the first time that slug
   * occurs, and `base-k` for its k-th occurrence. The inherited
   * `constructor` entry never counts, so that slug is never numbered.
   */
  function AnchorAt(bases: seq<string>, i: nat): string
    requires i < |bases|
  {
    var k := CountOf(bases[..i + 1], bases[i]);
    if k > 1 && bases[i] != InheritedSlug then bases[i] + "-" + NatToString(k) else bases[i]
  }

  /** The table of contents of a document with these headings. */
  function Toc(hs: seq<Heading>): (r: seq<TocItem>)
    ensures |r| == |hs|
    ensures forall i :: 0 <= i < |hs| ==>
      r[i] == TocItem(hs[i].level, hs[i].text, AnchorAt(BaseSlugs(hs), i))
  {
    var bases := BaseSlugs(hs);
    seq(|hs|, i requires 0 <= i < |hs| => TocItem(hs[i].level, hs[i].text, AnchorAt(bases, i)))
  }

  /**
   * A value of `slugCounts`: a count, or the string that `+ 1` makes of the
   * inherited `Object` function, which is what the `constructor` key holds.
   */
  datatype Slot = Count(n: nat) | Concat(text: string)

  /** `String(Object)`, the text `+` turns the inherited function into. */
  const ObjectSource := "function Object() { [native code] }"

  /** `{}`, as far as the keys `slugify` can produce go. */
  function EmptyCounts(): (m: map<string, Slot>)
    ensures InheritedSlug in m && m[InheritedSlug].Concat?
  {
    map[InheritedSlug := Concat(ObjectSource)]
  }

  /** `(slugCounts[b] || 0) + 1`: one more than the count, or one more "1" appended to the string. */
  function Bumped(m: map<string, Slot>, b: string): Slot
  {
    if b !in m then Count(1)
    else match m[b]
      case Count(n) => Count(n + 1)
      case Concat(t) => Concat(t + "1")
  }

  /** `slugCounts[b] > 1`: a string is compared through `Number`, which gives NaN for non-numeric text. */
  predicate ExceedsOne(v: Slot)
  {
    match v
    case Count(n) => n > 1
    case Concat(t) => Number(t).Num? && Number(t).n > 1
  }

  /** The value as the template literal prints it. */
  function SlotText(v: Slot): string
  {
    match v
    case Count(n) => NatToString(n)
    case Concat(t) => t
  }

  /** The `slugCounts` object after counting every slug of `s`. */
  function CountMap(s: seq<string>): (m: map<string, Slot>)
  {
    if s == [] then EmptyCounts()
    else
      var m := CountMap(s[..|s| - 1]);
      var b := s[|s| - 1];
      m[b := Bumped(m, b)]
  }

  /** `k` digits "1". */
  function Ones(k: nat): (r: string)
    ensures |r| == k && forall i :: 0 <= i < k ==> r[i] == '1'
  {
    seq(k, i => '1')
  }

  /**
   * The object's own entry for a slug is the number of times it occurs,
   * absent for none; the inherited `constructor` entry is the function's
   * text with one "1" appended per occurrence.
   */
  lemma {:induction false} CountMapCounts(s: seq<string>, b: string)
    ensures b != InheritedSlug ==> (b in CountMap(s) <==> CountOf(s, b) > 0)
    ensures b != InheritedSlug && b in CountMap(s) ==> CountMap(s)[b] == Count(CountOf(s, b))
    ensures InheritedSlug in CountMap(s)
    ensures CountMap(s)[InheritedSlug] == Concat(ObjectSource + Ones(CountOf(s, InheritedSlug)))
  {
    if s == [] {
      assert ObjectSource + Ones(0) == ObjectSource;
    } else {
      var t := s[..|s| - 1];
      CountMapCounts(t, b);
      CountMapCounts(t, InheritedSlug);
      if s[|s| - 1] == InheritedSlug {
        var k := CountOf(t, InheritedSlug);
        assert ObjectSource + Ones(k) + "1" == ObjectSource + Ones(k + 1);
      }
    }
  }

  /** The text of the inherited function is not a number. */
  lemma ObjectSourceNotNumber(k: nat)
    ensures Number(ObjectSource + Ones(k)) == NaN
  {
    var t := ObjectSource + Ones(k);
    assert t[0] == 'f' && !IsDigit(t[0]);
  }

  /** The traversal in `onUpdate`: count each base slug in `slugCounts` and push an entry per heading. */
  method BuildToc(headings: seq<Heading>) returns (items: seq<TocItem>)
    ensures items == Toc(headings)
  {
    var bases := BaseSlugs(headings);
    var slugCounts: map<string, Slot> := EmptyCounts();
    items := [];
    var k := 0;
    while k < |headings|
      invariant 0 <= k <= |headings|
      invariant items == Toc(headings)[..k]
      invariant slugCounts == CountMap(bases[..k])
    {
      var text := headings[k].text;
      var baseSlug := Slugify(text);
      assert baseSlug == bases[k];
      var count := Bumped(slugCounts, baseSlug);
      CountStep(bases, k, slugCounts, count);
      slugCounts := slugCounts[baseSlug := count];
      var id := if ExceedsOne(count) then baseSlug + "-" + SlotText(count) else baseSlug;
      PrefixSnoc(Toc(headings), k);
      items := items + [TocItem(headings[k].level, text, id)];
      k := k + 1;
    }
  }

  /** Counting one more slug bumps its entry; its anchor depends on the bumped value. */
  lemma CountStep(bases: seq<string>, k: nat, m: map<string, Slot>, count: Slot)
    requires k < |bases| && m == CountMap(bases[..k])
    requires count == Bumped(m, bases[k])
    ensures CountMap(bases[..k + 1]) == m[bases[k] := count]
    ensures AnchorAt(bases, k) == if ExceedsOne(count) then bases[k] + "-" + SlotText(count) else bases[k]
  {
    var s := bases[..k + 1];
    assert s[..|s| - 1] == bases[..k] && s[|s| - 1] == bases[k];
    CountMapCounts(s, bases[k]);
    if bases[k] == InheritedSlug {
      ObjectSourceNotNumber(CountOf(s, InheritedSlug));
    }
  }

  /** Two headings "constructor" are both anchored at "constructor": the second gets no "-2". */
  lemma InheritedSlugRepeats(bases: seq<string>)
    requires bases == [InheritedSlug, InheritedSlug]
    ensures AnchorAt(bases, 0) == InheritedSlug && AnchorAt(bases, 1) == InheritedSlug
    ensures CountMap(bases)[InheritedSlug] == Concat(ObjectSource + "11")
  {
    assert bases[..2] == bases;
    CountMapCounts(bases, InheritedSlug);
    assert bases[..1] == [InheritedSlug];
    assert CountOf(bases, InheritedSlug) == 2;
    assert Ones(2) == "11";
  }

  lemma PrefixSnoc<T>(s: seq<T>, k: nat)
    requires k < |s|
    ensures s[..k + 1] == s[..k] + [s[k]]
  {
  }

  /** The first heading with a base slug is anchored at the slug itself. */
  lemma FirstAnchorIsBase(bases: seq<string>, i: nat)
    requires i < |bases| && forall j :: 0 <= j < i ==> bases[j] != bases[i]
    ensures AnchorAt(bases, i) == bases[i]
  {
    NoEarlierCount(bases[..i], bases[i]);
    assert bases[..i + 1][..i] == bases[..i];
  }

  lemma {:induction false} NoEarlierCount(s: seq<string>, b: string)
    requires forall j :: 0 <= j < |s| ==> s[j] != b
    ensures CountOf(s, b) == 0
  {
    if s != [] {
      NoEarlierCount(s[..|s| - 1], b);
    }
  }

  /**
   * Anchors are not always distinct: a heading "a-2" followed by two
   * headings "a" gives the anchors "a-2", "a" and "a-2".
   */
  lemma AnchorsMayCollide()
    ensures var toc := Toc([Heading(2, "a-2"), Heading(2, "a"), Heading(2, "a")]);
      toc[0].id == "a-2" && toc[1].id == "a" && toc[2].id == "a-2"
  {
    var hs := [Heading(2, "a-2"), Heading(2, "a"), Heading(2, "a")];
    SlugOfSlug("a-2");
    SlugOfSlug("a");
    var bases := BaseSlugs(hs);
    assert bases[0] == "a-2" && bases[1] == "a" && bases[2] == "a";
    ThreeItems(bases, "a-2", "a", "a");
    CollidingAnchors();
  }

  lemma ThreeItems<T>(s: seq<T>, x: T, y: T, z: T)
    requires |s| == 3 && s[0] == x && s[1] == y && s[2] == z
    ensures s == [x, y, z]
  {
  }

  lemma CollidingAnchors()
    ensures AnchorAt(["a-2", "a", "a"], 0) == "a-2"
    ensures AnchorAt(["a-2", "a", "a"], 1) == "a"
    ensures AnchorAt(["a-2", "a", "a"], 2) == "a-2"
  {
    var bases := ["a-2", "a", "a"];
    assert bases[..1] == ["a-2"] && bases[..2] == ["a-2", "a"] && bases[..3] == bases;
    assert CountOf(["a-2"], "a-2") == 1;
    assert CountOf(["a-2", "a"], "a") == 1;
    assert CountOf(["a-2", "a", "a"], "a") == 2;
    assert NatToString(2) == "2";
  }

  /** An anchor that is not "heading" by accident is its own slug. */
  lemma SlugOfSlug(s: string)
    requires IsAnchor(s) && forall c :: c in s ==> !IsUpper(c)
    ensures Slugify(s) == s
  {
    LowerStrOfLower(s);
    assert AnchorChars(s) by {
      forall i | 0 <= i < |s| ensures IsLetterOrDigit(s[i]) || s[i] == '-' { assert s[i] in s; }
    }
    DashifyAnchorChars(s);
  }

  /** Whether the new entries match the previous ones in count, text and level. */
  predicate SameHeadings(prev: seq<TocItem>, items: seq<TocItem>)
  {
    |prev| == |items| &&
    forall i :: 0 <= i < |prev| ==> prev[i].text == items[i].text && prev[i].level == items[i].level
  }

  /** The `setToc` updater: keep the previous list unless the headings changed. */
  method UpdateToc(prev: seq<TocItem>, items: seq<TocItem>) returns (next: seq<TocItem>)
    ensures next == if SameHeadings(prev, items) then prev else items
  {
    if |prev| != |items| {
      return items;
    }
    var i := 0;
    while i < |prev|
      invariant 0 <= i <= |prev|
      invariant forall j :: 0 <= j < i ==> prev[j].text == items[j].text && prev[j].level == items[j].level
    {
      if prev[i].text != items[i].text || prev[i].level != items[i].level {
        return items;
      }
      i := i + 1;
    }
    return prev;
  }

  /**
   * A kept list is never stale: when both lists were built from documents
   * whose headings have the same texts and levels, they are equal, anchors
   * included.
   */
  lemma KeptTocIsCurrent(old1: seq<Heading>, new1: seq<Heading>)
    requires SameHeadings(Toc(old1), Toc(new1))
    ensures Toc(old1) == Toc(new1)
  {
    assert old1 == new1 by {
      forall i | 0 <= i < |old1|
        ensures old1[i] == new1[i]
      {
        assert Toc(old1)[i].text == Toc(new1)[i].text;
      }
    }
  }

  // ---------------------------------------------------------- page settings

  /** The `parent_path` the settings form starts with: the path minus its last label, if it has a dot. */
  function SettingsParentPath(path: string): (r: Option<string>)
    ensures r.None? <==> '.' !in path
    ensures r.Some? ==> path == r.value + "." + LastLabel(path)
  {
    if '.' in path then
      ParentAndLabel(path);
      Some(ParentOf(path))
    else None
  }

  /** The parent path shown for a child page is the path it was created under. */
  lemma SettingsParentOfChild(parent: string, slug: string)
    requires '.' !in slug
    ensures SettingsParentPath(parent + "." + slug) == Some(parent)
  {
    ParentOfChild(parent, slug);
  }

  /** `flattened.filter(...)`: every page except this one and those under it. */
  function SafePages(flattened: seq<Node>, page: Node): (r: seq<Node>)
    ensures forall p :: p in r <==>
      p in flattened && p.id != page.id && !StartsWith(p.path, page.path + ".")
  {
    if flattened == [] then []
    else
      var p := flattened[0];
      (if p.id != page.id && !StartsWith(p.path, page.path + ".") then [p] else [])
      + SafePages(flattened[1..], page)
  }

  /** A child page is never offered as the parent of its own parent. */
  lemma ChildNotOffered(flattened: seq<Node>, page: Node, child: Node, lbl: string)
    requires child.path == page.path + "." + lbl
    ensures child !in SafePages(flattened, page)
  {
    assert child.path[..|page.path + "."|] == page.path + ".";
  }

  /**
   * `walk(nodes)`, which pushes each node into the outer `flattened` array
   * and then walks its children (always present, so always walked).
   */
  method Walk(nodes: seq<Node>, flattened: seq<Node>) returns (result: seq<Node>)
    ensures result == flattened + PreOrder(nodes)
    decreases Size(nodes)
  {
    result := flattened;
    var k := 0;
    while k < |nodes|
      invariant 0 <= k <= |nodes|
      invariant result == flattened + PreOrder(nodes[..k])
    {
      var node := nodes[k];
      ChildrenSmaller(nodes, k);
      ghost var before := result;
      result := Walk(node.children, result + [node]);
      WalkStep(flattened, before, nodes, k);
      k := k + 1;
    }
    assert nodes[..k] == nodes;
  }

  /** Pushing the k-th node and then its subtree extends the pre-order listing by one more root. */
  lemma WalkStep(flattened: seq<Node>, before: seq<Node>, nodes: seq<Node>, k: nat)
    requires k < |nodes| && before == flattened + PreOrder(nodes[..k])
    ensures before + [nodes[k]] + PreOrder(nodes[k].children) == flattened + PreOrder(nodes[..k + 1])
  {
    assert nodes[..k + 1] == nodes[..k] + [nodes[k]];
    PreOrderSnoc(nodes[..k], nodes[k]);
  }

  // ------------------------------------------------------------ loaded page

  /** `/^\s*<h1[^>]*>/i`: after leading whitespace, an `<h1` or `<H1` tag that is closed by '>'. */
  predicate StartsWithH1(content: string)
  {
    var t := TrimStart(content, JavaScript);
    |t| >= 3 && t[0] == '<' && (t[1] == 'h' || t[1] == 'H') && t[2] == '1' && '>' in t[3..]
  }

  /**
   * The HTML put into the editor for a loaded page: the stored content, or an
   * empty paragraph when there is none, with the title as a heading in front
   * unless it already opens with one. With a title, it always opens with a
   * level-one heading.
   */
  function LoadedContent(content: Option<string>, title: string): (r: string)
    ensures var c := if Truthy(content) then content.value else "<p></p>";
      && (r == c || r == "<h1>" + title + "</h1>" + c)
      && (StartsWithH1(c) || title == "" ==> r == c)
      && (title != "" ==> StartsWithH1(r))
  {
    var c := if Truthy(content) then content.value else "<p></p>";
    if !StartsWithH1(c) && title != "" then
      TitleHeadingOpens(title, c);
      "<h1>" + title + "</h1>" + c
    else c
  }

  /** Content behind a title heading starts with a level-one heading. */
  lemma TitleHeadingOpens(title: string, c: string)
    ensures StartsWithH1("<h1>" + title + "</h1>" + c)
  {
    var h := "<h1>" + title + "</h1>" + c;
    assert h[0] == '<' && h[1] == 'h' && h[2] == '1' && h[3] == '>';
    assert !IsJsSpace(h[0]);
    assert TrimStart(h, JavaScript) == h;
    assert h[3..][0] == '>';
  }

  /** Loading content that went through this step once more adds nothing. */
  lemma LoadedContentStable(content: Option<string>, title: string)
    ensures LoadedContent(Some(LoadedContent(content, title)), title) == LoadedContent(content, title)
  {
  }
}

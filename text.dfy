/**
 * Character classes and case mapping over the alphabet the model covers:
 * ASCII and the basic Cyrillic block (U+0400..U+045F), the two scripts the
 * wiki's users type.
 */
module Text {

  /** `toLowerCase()` / `str.lower()` on one character. */
  function Lower(c: char): (r: char)
    ensures IsLetterOrDigit(r) <==> IsLetterOrDigit(c)
    ensures !IsUpper(r)
    ensures !IsUpper(c) ==> r == c
  {
    if 'A' <= c <= 'Z' || '\U{410}' <= c <= '\U{42F}' then (c as int + 32) as char
    else if '\U{400}' <= c <= '\U{40F}' then (c as int + 80) as char
    else c
  }

  /** The capital letters of the covered alphabet: A-Z, and U+0400..U+042F (Ѐ..Я). */
  predicate IsUpper(c: char)
  {
    'A' <= c <= 'Z' || '\U{400}' <= c <= '\U{42F}'
  }

  /** Lower-casing maps whitespace to itself and nothing else to whitespace. */
  lemma LowerKeepsSpace(c: char)
    ensures IsPySpace(Lower(c)) <==> IsPySpace(c)
  {
    if IsUpper(c) {
      assert !IsPySpace(c) && !IsPySpace(Lower(c));
    }
  }

  /** Lower-casing twice is lower-casing once. */
  lemma LowerStrIdempotent(s: string)
    ensures LowerStr(LowerStr(s)) == LowerStr(s)
  {
  }

  function LowerStr(s: string): (r: string)
    ensures |r| == |s|
    ensures forall i :: 0 <= i < |s| ==> r[i] == Lower(s[i])
    ensures forall c :: c in r ==> !IsUpper(c)
  {
    seq(|s|, i requires 0 <= i < |s| => Lower(s[i]))
  }

  /** The Unicode classes `\p{L}` and `\p{N}` restricted to the covered alphabet. */
  predicate IsLetterOrDigit(c: char)
  {
    'a' <= c <= 'z' || 'A' <= c <= 'Z' || '0' <= c <= '9' || '\U{400}' <= c <= '\U{45F}'
  }

  /** Which language's notion of whitespace a trim follows. */
  datatype Whitespace = Python | JavaScript

  /**
   * Python's `str.isspace()`, the characters `str.strip()` removes: the ASCII
   * controls 0x09-0x0D and 0x1C-0x1F, the space, U+0085, and the Unicode
   * space separators and line and paragraph separators.
   */
  predicate IsPySpace(c: char)
  {
    || '\t' <= c <= '\r' || '\U{1C}' <= c <= ' ' || c == '\U{85}' || c == '\U{A0}' || c == '\U{1680}'
    || '\U{2000}' <= c <= '\U{200A}' || c == '\U{2028}' || c == '\U{2029}' || c == '\U{202F}'
    || c == '\U{205F}' || c == '\U{3000}'
  }

  /**
   * The JavaScript regular-expression class `\s`: like Python's set but
   * without 0x1C-0x1F and U+0085, and with the byte-order mark U+FEFF.
   */
  predicate IsJsSpace(c: char)
  {
    || '\t' <= c <= '\r' || c == ' ' || c == '\U{A0}' || c == '\U{1680}'
    || '\U{2000}' <= c <= '\U{200A}' || c == '\U{2028}' || c == '\U{2029}' || c == '\U{202F}'
    || c == '\U{205F}' || c == '\U{3000}' || c == '\U{FEFF}'
  }

  predicate IsSpace(c: char, ws: Whitespace)
  {
    if ws == Python then IsPySpace(c) else IsJsSpace(c)
  }

  function TrimStart(s: string, ws: Whitespace): (r: string)
    ensures |r| <= |s| && r == s[|s| - |r|..]
    ensures r == [] || !IsSpace(r[0], ws)
    ensures forall i :: 0 <= i < |s| - |r| ==> IsSpace(s[i], ws)
  {
    if s != [] && IsSpace(s[0], ws) then
      var r := TrimStart(s[1..], ws);
      assert s[1..][|s| - 1 - |r|..] == s[|s| - |r|..];
      assert forall i :: 1 <= i < |s| - |r| ==> s[i] == s[1..][i - 1];
      r
    else s
  }

  function TrimEnd(s: string, ws: Whitespace): (r: string)
    ensures |r| <= |s| && r == s[..|r|]
    ensures r == [] || !IsSpace(r[|r| - 1], ws)
    ensures forall i :: |r| <= i < |s| ==> IsSpace(s[i], ws)
  {
    if s != [] && IsSpace(s[|s| - 1], ws) then
      var r := TrimEnd(s[..|s| - 1], ws);
      assert s[..|s| - 1][..|r|] == s[..|r|];
      assert forall i :: |r| <= i < |s| - 1 ==> s[i] == s[..|s| - 1][i];
      r
    else s
  }

  /**
   * `str.strip()`: the longest run of Python whitespace is removed from each
   * end; what remains is a slice of `s`, and is empty only when `s` is all
   * whitespace.
   */
  function Strip(s: string): (r: string)
    ensures r == [] || (!IsPySpace(r[0]) && !IsPySpace(r[|r| - 1]))
    ensures |r| <= |s| && forall c :: c in r ==> c in s
    ensures r == [] <==> forall i :: 0 <= i < |s| ==> IsPySpace(s[i])
    ensures s == [] || (!IsPySpace(s[0]) && !IsPySpace(s[|s| - 1])) ==> r == s
  {
    var t := TrimStart(s, Python);
    var r := TrimEnd(t, Python);
    StripEmpty(s, t, r);
    r
  }

  /** Both trims leave nothing exactly when every character is whitespace. */
  lemma StripEmpty(s: string, t: string, r: string)
    requires t == TrimStart(s, Python) && r == TrimEnd(t, Python)
    ensures r == [] <==> forall i :: 0 <= i < |s| ==> IsPySpace(s[i])
  {
    var d := |s| - |t|;
    if r == [] {
      forall i | 0 <= i < |s| ensures IsPySpace(s[i]) {
        assert IsSpace(s[i], Python);
      }
    } else {
      assert r[0] == t[0] == s[d];
      assert !IsSpace(s[d], Python);
    }
  }

  /** A string without capitals is its own lower-case form. */
  lemma LowerStrOfLower(s: string)
    requires forall c :: c in s ==> !IsUpper(c)
    ensures LowerStr(s) == s
  {
  }

  predicate StartsWith(s: string, prefix: string)
  {
    |prefix| <= |s| && s[..|prefix|] == prefix
  }
}

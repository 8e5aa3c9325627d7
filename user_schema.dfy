/**
 * The `email` validator that `UserLogin` and `UserCreate` both declare
 * (backend/app/schemas/user.py): the raw value must match
 * `^[^@]+@[^@]+\.[^@]+$`, and the value kept is the lower-cased, stripped one.
 */
module UserSchema {
  import opened Common
  import opened Text

  /** What the validator does with a value: keep a normalised email, or raise ValueError. */
  datatype EmailCheck = Accepted(email: string) | Rejected(message: string)

  /**
   * The pattern, position by position: one '@' at i, nothing else in the
   * string an '@', at least one character before it, and a '.' at k with at
   * least one character between '@' and '.' and at least one after the '.'.
   * `[^@]` also matches a line break, so `$` adds nothing here.
   */
  ghost predicate EmailPattern(v: string)
  {
    exists i, k :: 0 < i && i + 1 < k && k + 1 < |v| && v[i] == '@' && v[k] == '.' &&
      forall m :: 0 <= m < |v| && m != i ==> v[m] != '@'
  }

  /** The position of the first `c` in `s`. */
  function IndexOf(s: string, c: char): (r: Option<nat>)
    ensures r.Some? ==> r.value < |s| && s[r.value] == c && c !in s[..r.value]
    ensures r.None? <==> c !in s
  {
    if s == [] then None
    else if s[0] == c then Some(0)
    else match IndexOf(s[1..], c)
      case None => None
      case Some(k) => assert s[..k + 1] == [s[0]] + s[1..][..k]; Some(k + 1)
  }

  /** The pattern as a computation: split at the only '@', then look for an inner '.' after it. */
  predicate MatchesEmail(v: string)
  {
    match IndexOf(v, '@')
    case None => false
    case Some(i) =>
      var domain := v[i + 1..];
      0 < i && '@' !in domain && |domain| >= 3 && '.' in domain[1..|domain| - 1]
  }

  /** The computation accepts exactly the strings the pattern matches. */
  lemma MatchesEmailIff(v: string)
    ensures MatchesEmail(v) <==> EmailPattern(v)
  {
    if MatchesEmail(v) {
      MatchedHasPattern(v);
    }
    if EmailPattern(v) {
      PatternIsMatched(v);
    }
  }

  lemma MatchedHasPattern(v: string)
    requires MatchesEmail(v)
    ensures EmailPattern(v)
  {
    var i := IndexOf(v, '@').value;
    var domain := v[i + 1..];
    var inner := domain[1..|domain| - 1];
    var d :| 0 <= d < |inner| && inner[d] == '.';
    var k := i + 2 + d;
    assert v[k] == '.';
    forall m | 0 <= m < |v| && m != i
      ensures v[m] != '@'
    {
      if m < i {
        assert v[m] in v[..i];
      } else {
        assert v[m] == domain[m - i - 1];
      }
    }
  }

  lemma PatternIsMatched(v: string)
    requires EmailPattern(v)
    ensures MatchesEmail(v)
  {
    var i, k :| 0 < i && i + 1 < k && k + 1 < |v| && v[i] == '@' && v[k] == '.' &&
      forall m :: 0 <= m < |v| && m != i ==> v[m] != '@';
    var j := IndexOf(v, '@').value;
    assert j == i;
    var domain := v[i + 1..];
    forall m | 0 <= m < |domain|
      ensures domain[m] != '@'
    {
      var n := i + 1 + m;
      assert domain[m] == v[n] && n != i && n < |v|;
    }
    assert '@' !in domain;
    assert domain[1..|domain| - 1][k - i - 2] == '.';
  }

  /**
   * `email.lower().strip()`, the normal form stored and looked up by the
   * endpoints: no capitals and no Python whitespace at either end, and
   * empty only for a value made of whitespace.
   */
  function NormalizeEmail(v: string): (r: string)
    ensures |r| <= |v|
    ensures forall c :: c in r ==> !IsUpper(c)
    ensures r == [] || (!IsPySpace(r[0]) && !IsPySpace(r[|r| - 1]))
    ensures r == [] <==> forall i :: 0 <= i < |v| ==> IsPySpace(v[i])
  {
    var lower := LowerStr(v);
    LowerStrSpaces(v, lower);
    Strip(lower)
  }

  /** Lower-casing keeps the length, adds no capital, and keeps every whitespace position. */
  lemma LowerStrSpaces(v: string, lower: string)
    requires lower == LowerStr(v)
    ensures |lower| == |v| && forall c :: c in lower ==> !IsUpper(c)
    ensures (forall i :: 0 <= i < |lower| ==> IsPySpace(lower[i])) <==> (forall i :: 0 <= i < |v| ==> IsPySpace(v[i]))
  {
    forall i | 0 <= i < |v| ensures IsPySpace(lower[i]) <==> IsPySpace(v[i]) {
      LowerKeepsSpace(v[i]);
    }
  }

  /** The separators 0x1C-0x1F count as whitespace: "a@b.c" followed by U+001F is stored as "a@b.c". */
  lemma UnitSeparatorStripped(v: string)
    requires v == "a@b.c\U{1F}"
    ensures NormalizeEmail(v) == "a@b.c"
  {
    LowerStrOfLower(v);
    assert !IsPySpace(v[0]);
    assert TrimStart(v, Python) == v;
    assert IsPySpace(v[5]) && !IsPySpace(v[4]);
    assert TrimEnd(v[..5], Python) == v[..5];
  }

  /** `validate_email(v)`: reject a value off the pattern, otherwise keep its normal form. */
  function ValidateEmail(v: string): (r: EmailCheck)
    ensures r.Rejected? ==> r.message == "Invalid email format"
    ensures r.Accepted? ==> r.email == NormalizeEmail(v)
  {
    if MatchesEmail(v) then Accepted(NormalizeEmail(v)) else Rejected("Invalid email format")
  }

  /** The validator accepts exactly the values the pattern matches. */
  lemma ValidateEmailPattern(v: string)
    ensures ValidateEmail(v).Accepted? <==> EmailPattern(v)
  {
    MatchesEmailIff(v);
  }

  /** Normalising a normal form changes nothing. */
  lemma NormalizeIdempotent(v: string)
    ensures NormalizeEmail(NormalizeEmail(v)) == NormalizeEmail(v)
  {
    var n := NormalizeEmail(v);
    LowerStrOfLower(n);
  }

  /**
   * The check runs on the raw value, before stripping: " @b.c" is accepted
   * and becomes "@b.c", which the pattern itself rejects.
   */
  lemma CheckedBeforeStrip()
    ensures ValidateEmail(" @b.c") == Accepted("@b.c")
    ensures !EmailPattern("@b.c")
  {
    SpaceLocalPartMatches();
    NoLocalPartFails();
  }

  lemma SpaceLocalPartMatches()
    ensures ValidateEmail(" @b.c") == Accepted("@b.c")
  {
    SpaceLocalPartPattern();
    SpaceLocalPartNormal();
  }

  lemma SpaceLocalPartPattern()
    ensures MatchesEmail(" @b.c")
  {
    var v := " @b.c";
    assert IndexOf(v[1..], '@') == Some(0);
    assert IndexOf(v, '@') == Some(1);
    assert v[2..][1..|v[2..]| - 1] == ".";
  }

  lemma SpaceLocalPartNormal()
    ensures Strip(LowerStr(" @b.c")) == "@b.c"
  {
    LowerStrOfLower(" @b.c");
    LeadingSpaceTrimmed();
    assert TrimEnd("@b.c", Python) == "@b.c";
  }

  lemma LeadingSpaceTrimmed()
    ensures TrimStart(" @b.c", Python) == "@b.c"
  {
    var v := " @b.c";
    assert !IsPySpace(v[1]);
    assert TrimStart(v[1..], Python) == v[1..];
  }

  lemma NoLocalPartFails()
    ensures !EmailPattern("@b.c")
  {
    MatchesEmailIff("@b.c");
    assert IndexOf("@b.c", '@') == Some(0);
  }
}

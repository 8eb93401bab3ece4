/** The string primitives the chatbot matches with: Python's str.lower,
    str.title and str.strip, the substring test `in`, str.startswith and
    str.join. Letters are modelled on ASCII; whitespace is Python's
    str.isspace table in full. */
module Strings {

  /** Python's str.isspace for one code point. */
  predicate IsSpace(c: char) {
    var n := c as int;
    (9 <= n <= 13) || (28 <= n <= 32) || n == 0x85 || n == 0xA0 || n == 0x1680
    || (0x2000 <= n <= 0x200A) || n == 0x2028 || n == 0x2029 || n == 0x202F
    || n == 0x205F || n == 0x3000
  }

  predicate IsUpper(c: char) { 'A' <= c <= 'Z' }
  predicate IsLower(c: char) { 'a' <= c <= 'z' }

  /** A character with case; str.title starts a new word after anything else. */
  predicate IsCased(c: char) { IsUpper(c) || IsLower(c) }

  function LowerChar(c: char): char {
    if IsUpper(c) then (c as int + 32) as char else c
  }

  function UpperChar(c: char): char {
    if IsLower(c) then (c as int - 32) as char else c
  }

  /** str.lower */
  function Lower(s: string): string {
    seq(|s|, i requires 0 <= i < |s| => LowerChar(s[i]))
  }

  /** str.title: a cased character is upper-cased when it follows an
      uncased one (or starts the string) and lower-cased otherwise. */
  function Title(s: string): string {
    TitleFrom(s, false)
  }

  function TitleFrom(s: string, afterCased: bool): string {
    if s == [] then []
    else [if afterCased then LowerChar(s[0]) else UpperChar(s[0])] + TitleFrom(s[1..], IsCased(s[0]))
  }

  /** The number of whitespace characters `s` starts with. */
  function LeadingSpaces(s: string): (n: nat)
    ensures n <= |s|
  {
    if s != [] && IsSpace(s[0]) then 1 + LeadingSpaces(s[1..]) else 0
  }

  /** The number of whitespace characters `s` ends with. */
  function TrailingSpaces(s: string): (n: nat)
    ensures n <= |s|
  {
    if s != [] && IsSpace(s[|s| - 1]) then 1 + TrailingSpaces(s[..|s| - 1]) else 0
  }

  /** str.lstrip() */
  function StripStart(s: string): string {
    s[LeadingSpaces(s)..]
  }

  /** str.rstrip() */
  function StripEnd(s: string): string {
    s[..|s| - TrailingSpaces(s)]
  }

  /** str.strip() */
  function Strip(s: string): string {
    StripEnd(StripStart(s))
  }

  /** `r` is `s` with `k` leading and some trailing characters removed, all
      of them whitespace. */
  predicate TrimmedAt(s: string, r: string, k: int) {
    && 0 <= k <= |s| - |r|
    && r == s[k..k + |r|]
    && (forall i :: 0 <= i < k ==> IsSpace(s[i]))
    && (forall i :: k + |r| <= i < |s| ==> IsSpace(s[i]))
  }

  /** normalize_text: lower-case, then strip. */
  function Normalize(s: string): string {
    Strip(Lower(s))
  }

  /** Python's `p in s` for strings: the empty string is in every string. */
  predicate IsSubstring(p: string, s: string) {
    exists i :: 0 <= i <= |s| - |p| && OccursAt(p, s, i)
  }

  /** `p` occurs in `s` starting at index `i`. */
  predicate OccursAt(p: string, s: string, i: int) {
    0 <= i <= |s| - |p| && s[i..i + |p|] == p
  }

  /** str.startswith */
  predicate StartsWith(s: string, p: string) {
    |p| <= |s| && s[..|p|] == p
  }

  /** sep.join(parts) */
  function Join(parts: seq<string>, sep: string): string {
    if |parts| == 0 then ""
    else if |parts| == 1 then parts[0]
    else parts[0] + sep + Join(parts[1..], sep)
  }

  // ---------------------------------------------------------------------
  // Properties
  // ---------------------------------------------------------------------

  /** The empty string is contained in every string. */
  lemma EmptyIsSubstring(s: string)
    ensures IsSubstring("", s)
  {
    assert OccursAt("", s, 0);
  }

  /** Title keeps the length and gives each character the case its
      position calls for. */
  lemma {:induction false} TitleFromAt(s: string, afterCased: bool, i: nat)
    requires i < |s|
    ensures |TitleFrom(s, afterCased)| == |s|
    ensures TitleFrom(s, afterCased)[i] ==
            if (if i == 0 then afterCased else IsCased(s[i - 1])) then LowerChar(s[i]) else UpperChar(s[i])
  {
    if i == 0 {
      TitleFromLength(s[1..], IsCased(s[0]));
    } else {
      TitleFromAt(s[1..], IsCased(s[0]), i - 1);
    }
  }

  lemma {:induction false} TitleFromLength(s: string, afterCased: bool)
    ensures |TitleFrom(s, afterCased)| == |s|
  {
    if s != [] {
      TitleFromLength(s[1..], IsCased(s[0]));
    }
  }

  /** str.title() per position: upper case at the start of a word, lower
      case inside one; in particular only the empty string titles to "". */
  lemma TitleAt(s: string, i: nat)
    requires i < |s|
    ensures |Title(s)| == |s|
    ensures Title(s)[i] == if i > 0 && IsCased(s[i - 1]) then LowerChar(s[i]) else UpperChar(s[i])
  {
    TitleFromAt(s, false, i);
  }

  lemma TitleEmpty(s: string)
    ensures Title(s) == "" <==> s == ""
  {
    TitleFromLength(s, false);
  }

  /** The leading whitespace is exactly the first LeadingSpaces(s)
      characters. */
  lemma {:induction false} LeadingSpacesSpec(s: string)
    ensures forall i :: 0 <= i < LeadingSpaces(s) ==> IsSpace(s[i])
    ensures LeadingSpaces(s) < |s| ==> !IsSpace(s[LeadingSpaces(s)])
  {
    if s != [] && IsSpace(s[0]) {
      LeadingSpacesSpec(s[1..]);
    }
  }

  /** The trailing whitespace is exactly the last TrailingSpaces(s)
      characters. */
  lemma {:induction false} TrailingSpacesSpec(s: string)
    ensures forall i :: |s| - TrailingSpaces(s) <= i < |s| ==> IsSpace(s[i])
    ensures TrailingSpaces(s) < |s| ==> !IsSpace(s[|s| - TrailingSpaces(s) - 1])
  {
    if s != [] && IsSpace(s[|s| - 1]) {
      TrailingSpacesSpec(s[..|s| - 1]);
    }
  }

  /** str.strip() removes whitespace, and only whitespace, from both ends,
      and what it leaves neither starts nor ends with whitespace. */
  lemma StripSpec(s: string)
    ensures exists k :: TrimmedAt(s, Strip(s), k)
    ensures Strip(s) != [] ==> !IsSpace(Strip(s)[0]) && !IsSpace(Strip(s)[|Strip(s)| - 1])
  {
    var a := LeadingSpaces(s);
    var t := s[a..];
    var b := TrailingSpaces(t);
    LeadingSpacesSpec(s);
    TrailingSpacesSpec(t);
    assert Strip(s) == s[a..|s| - b];
    assert TrimmedAt(s, Strip(s), a);
  }

  /** Lower-casing never turns whitespace into something else or back. */
  lemma LowerCharSpace(c: char)
    ensures IsSpace(LowerChar(c)) == IsSpace(c)
  {
  }

  lemma {:induction false} LeadingSpacesLower(s: string)
    ensures LeadingSpaces(Lower(s)) == LeadingSpaces(s)
  {
    if s != [] {
      assert Lower(s)[0] == LowerChar(s[0]);
      assert Lower(s)[1..] == Lower(s[1..]);
      LowerCharSpace(s[0]);
      LeadingSpacesLower(s[1..]);
    }
  }

  lemma {:induction false} TrailingSpacesLower(s: string)
    ensures TrailingSpaces(Lower(s)) == TrailingSpaces(s)
  {
    if s != [] {
      var n := |s| - 1;
      assert Lower(s)[n] == LowerChar(s[n]);
      assert Lower(s)[..n] == Lower(s[..n]);
      LowerCharSpace(s[n]);
      TrailingSpacesLower(s[..n]);
    }
  }

  /** Lower-casing and stripping commute. */
  lemma LowerStrip(s: string)
    ensures Lower(Strip(s)) == Strip(Lower(s))
  {
    var a := LeadingSpaces(s);
    LeadingSpacesLower(s);
    assert Lower(s)[a..] == Lower(s[a..]);
    var t := s[a..];
    TrailingSpacesLower(t);
    var b := |t| - TrailingSpaces(t);
    assert Lower(t)[..b] == Lower(t[..b]);
  }

  lemma LowerIdempotent(s: string)
    ensures Lower(Lower(s)) == Lower(s)
  {
  }

  /** A string that neither starts nor ends with whitespace is left alone
      by strip(). */
  lemma StripStable(s: string)
    requires s != [] ==> !IsSpace(s[0]) && !IsSpace(s[|s| - 1])
    ensures Strip(s) == s
  {
    assert LeadingSpaces(s) == 0;
    assert TrailingSpaces(s) == 0;
  }

  /** normalize_text is idempotent, so the second normalisation that
      find_partial_match applies to already-normalised text changes nothing. */
  lemma NormalizeIdempotent(s: string)
    ensures Normalize(Normalize(s)) == Normalize(s)
  {
    var l := Lower(s);
    LowerStrip(l);
    LowerIdempotent(s);
    StripSpec(l);
    StripStable(Strip(l));
  }

  /** A non-empty first part makes the joined string non-empty. */
  lemma JoinNonEmpty(parts: seq<string>, sep: string)
    requires |parts| > 0 && parts[0] != ""
    ensures Join(parts, sep) != ""
    ensures StartsWith(Join(parts, sep), parts[0])
  {
  }
}

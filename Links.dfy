/** How send_message writes a reply into the transcript so that its URLs can
    be clicked: the reply is cut in front of every "https://" and "http://"
    (by replacing each scheme with "|||" + scheme and splitting at "|||"),
    and a part that starts with a scheme is written as a link up to its
    first space, newline or tab, followed by the rest of the part as plain
    text. The tags, colours and click handlers are left to the window. */
module Links {
  import opened Strings

  /** One insert into the transcript: its text and whether it is a link. */
  datatype Segment = Segment(text: string, isLink: bool)

  const Marker := "|||"
  const HttpsScheme := "https://"
  const HttpScheme := "http://"

  /** The characters that end a URL. */
  const UrlTerminators := ['\n', ' ', '\t']

  /** str.replace(pat, rep): every occurrence, scanning left to right
      without overlaps. */
  function Replace(s: string, pat: string, rep: string): string
    requires pat != []
    decreases |s|
  {
    if |s| < |pat| then s
    else if s[..|pat|] == pat then rep + Replace(s[|pat|..], pat, rep)
    else [s[0]] + Replace(s[1..], pat, rep)
  }

  /** str.split(sep): the pieces between the separators, found left to
      right without overlaps; always at least one piece. */
  function Split(s: string, sep: string): (parts: seq<string>)
    requires sep != []
    ensures |parts| >= 1
    decreases |s|
  {
    if |s| < |sep| then [s]
    else if s[..|sep|] == sep then [""] + Split(s[|sep|..], sep)
    else
      var rest := Split(s[1..], sep);
      [[s[0]] + rest[0]] + rest[1..]
  }

  /** The parts the reply is cut into. */
  function Parts(reply: string): seq<string> {
    Split(Replace(Replace(reply, HttpsScheme, Marker + HttpsScheme), HttpScheme, Marker + HttpScheme), Marker)
  }

  /** str.find for one character: its first index, or -1. */
  function Find(s: string, c: char): (r: int)
    ensures -1 <= r < |s|
    ensures r == -1 <==> c !in s
    ensures r >= 0 ==> s[r] == c && c !in s[..r]
  {
    if s == [] then -1
    else if s[0] == c then 0
    else
      var r := Find(s[1..], c);
      assert s == [s[0]] + s[1..];
      assert r >= 0 ==> s[..r + 1] == [s[0]] + s[1..][..r];
      if r == -1 then -1 else r + 1
  }

  /** The length of the URL a part starts with: up to the first terminator,
      or the whole part. */
  function UrlLength(part: string): (e: nat)
    ensures e <= |part|
    ensures forall i :: 0 <= i < e ==> part[i] !in UrlTerminators
    ensures e == |part| || part[e] in UrlTerminators
  {
    if part == [] || part[0] in UrlTerminators then 0 else 1 + UrlLength(part[1..])
  }

  /** The end of the URL, as send_message computes it: the least index at
      which `find` sees any of the terminators, else the part's length. */
  method UrlEnd(part: string) returns (e: nat)
    ensures e == UrlLength(part)
  {
    e := |part|;
    for k := 0 to |UrlTerminators|
      invariant e <= |part|
      invariant forall i :: 0 <= i < e ==> part[i] !in UrlTerminators[..k]
      invariant e == |part| || part[e] in UrlTerminators[..k]
    {
      var found := Find(part, UrlTerminators[k]);
      if found != -1 && found < e {
        e := found;
      }
    }
    assert UrlTerminators[..|UrlTerminators|] == UrlTerminators;
  }

  predicate IsUrlStart(part: string) {
    StartsWith(part, HttpScheme) || StartsWith(part, HttpsScheme)
  }

  /** The inserts for one part: a URL and the text after it, or the part. */
  function PartSegments(part: string): seq<Segment> {
    if IsUrlStart(part) then
      var e := UrlLength(part);
      [Segment(part[..e], true), Segment(part[e..], false)]
    else [Segment(part, false)]
  }

  /** The inserts for a sequence of parts, in order. */
  function SegmentsOf(parts: seq<string>): seq<Segment> {
    if parts == [] then []
    else SegmentsOf(parts[..|parts| - 1]) + PartSegments(parts[|parts| - 1])
  }

  /** All inserts send_message makes for one reply, the final newline
      included. */
  function Segments(reply: string): seq<Segment> {
    if IsSubstring(HttpsScheme, reply) || IsSubstring(HttpScheme, reply) then
      SegmentsOf(Parts(reply)) + [Segment("\n", false)]
    else [Segment(reply + "\n", false)]
  }

  /** The link-splitting loop of send_message. */
  method SegmentReply(reply: string) returns (segs: seq<Segment>)
    ensures segs == Segments(reply)
  {
    if IsSubstring(HttpsScheme, reply) || IsSubstring(HttpScheme, reply) {
      var parts := Parts(reply);
      segs := [];
      for k := 0 to |parts|
        invariant segs == SegmentsOf(parts[..k])
      {
        var part := parts[k];
        assert parts[..k + 1][..k] == parts[..k];
        if StartsWith(part, HttpScheme) || StartsWith(part, HttpsScheme) {
          var e := UrlEnd(part);
          segs := segs + [Segment(part[..e], true), Segment(part[e..], false)];
        } else {
          segs := segs + [Segment(part, false)];
        }
      }
      assert parts[..|parts|] == parts;
      segs := segs + [Segment("\n", false)];
    } else {
      segs := [Segment(reply + "\n", false)];
    }
  }

  // ---------------------------------------------------------------------
  // Concatenation
  // ---------------------------------------------------------------------

  /** "".join(parts) */
  function Concat(parts: seq<string>): string {
    if parts == [] then "" else Concat(parts[..|parts| - 1]) + parts[|parts| - 1]
  }

  /** Concat is "".join: it agrees with Strings.Join for the empty
      separator. */
  lemma {:induction false} ConcatIsJoin(parts: seq<string>)
    ensures Concat(parts) == Join(parts, "")
  {
    if parts != [] {
      var n := |parts| - 1;
      ConcatIsJoin(parts[..n]);
      JoinEmptyAppend(parts[..n], parts[n]);
      assert parts[..n] + [parts[n]] == parts;
    }
  }

  lemma {:induction false} JoinEmptyAppend(parts: seq<string>, x: string)
    ensures Join(parts + [x], "") == Join(parts, "") + x
    decreases |parts|
  {
    if |parts| == 1 {
      assert parts + [x] == [parts[0], x];
    } else if |parts| > 1 {
      assert (parts + [x])[1..] == parts[1..] + [x];
      JoinEmptyAppend(parts[1..], x);
    } else {
      assert parts + [x] == [x];
    }
  }

  /** The text of all inserts, in order: what the transcript gains. */
  function Flatten(segs: seq<Segment>): string {
    Concat(Texts(segs))
  }

  function Texts(segs: seq<Segment>): seq<string> {
    seq(|segs|, i requires 0 <= i < |segs| => segs[i].text)
  }

  lemma {:induction false} ConcatAppend(a: seq<string>, b: seq<string>)
    ensures Concat(a + b) == Concat(a) + Concat(b)
    decreases |b|
  {
    if b != [] {
      var n := |b| - 1;
      assert (a + b)[..|a + b| - 1] == a + b[..n];
      ConcatAppend(a, b[..n]);
    } else {
      assert a + b == a;
    }
  }

  lemma FlattenAppend(a: seq<Segment>, b: seq<Segment>)
    ensures Flatten(a + b) == Flatten(a) + Flatten(b)
  {
    assert Texts(a + b) == Texts(a) + Texts(b);
    ConcatAppend(Texts(a), Texts(b));
  }

  /** The inserts for one part spell out the part. */
  lemma FlattenPartSegments(part: string)
    ensures Flatten(PartSegments(part)) == part
  {
    if IsUrlStart(part) {
      var e := UrlLength(part);
      assert Texts(PartSegments(part)) == [part[..e]] + [part[e..]];
      ConcatAppend([part[..e]], [part[e..]]);
      assert Concat([part[..e]]) == part[..e];
      assert part[..e] + part[e..] == part;
    } else {
      assert Texts(PartSegments(part)) == [part];
      assert Concat([part]) == part;
    }
  }

  /** Writing the inserts of the parts gives back the parts' concatenation. */
  lemma {:induction false} FlattenSegmentsOf(parts: seq<string>)
    ensures Flatten(SegmentsOf(parts)) == Concat(parts)
  {
    if parts != [] {
      var n := |parts| - 1;
      FlattenSegmentsOf(parts[..n]);
      FlattenAppend(SegmentsOf(parts[..n]), PartSegments(parts[n]));
      FlattenPartSegments(parts[n]);
    }
  }

  // ---------------------------------------------------------------------
  // Splitting at the marker undoes the marking
  // ---------------------------------------------------------------------

  /** The string with its "|||" occurrences removed, left to right without
      overlaps: the concatenation of its split at "|||". */
  function Unmark(s: string): string
    decreases |s|
  {
    if |s| < 3 then s
    else if s[..3] == Marker then Unmark(s[3..])
    else [s[0]] + Unmark(s[1..])
  }

  lemma {:induction false} SplitUnmark(s: string)
    ensures Concat(Split(s, Marker)) == Unmark(s)
    decreases |s|
  {
    if |s| < 3 {
      assert Concat([s]) == Concat([]) + s;
    } else if s[..3] == Marker {
      SplitUnmark(s[3..]);
      ConcatAppend([""], Split(s[3..], Marker));
      assert Concat([""]) == "";
    } else {
      var rest := Split(s[1..], Marker);
      SplitUnmark(s[1..]);
      ConcatAppend([[s[0]] + rest[0]], rest[1..]);
      ConcatAppend([rest[0]], rest[1..]);
      assert [rest[0]] + rest[1..] == rest;
      assert Concat([[s[0]] + rest[0]]) == [s[0]] + rest[0];
      assert Concat([rest[0]]) == rest[0];
    }
  }

  predicate StartsWithMarker(s: string) {
    |s| >= 3 && s[..3] == Marker
  }

  lemma UnmarkMarker(s: string)
    ensures Unmark(Marker + s) == Unmark(s)
  {
    assert (Marker + s)[..3] == Marker && (Marker + s)[3..] == s;
  }

  lemma UnmarkCons(c: char, s: string)
    requires !StartsWithMarker([c] + s)
    ensures Unmark([c] + s) == [c] + Unmark(s)
  {
    assert ([c] + s)[1..] == s;
  }

  /** Inserting "|||" anywhere leaves the unmarked string as it was: it
      either forms a run of its own or lengthens a run of '|' by three. */
  lemma {:induction false} UnmarkInsert(z: string, i: nat)
    requires i <= |z|
    ensures Unmark(z[..i] + Marker + z[i..]) == Unmark(z)
    decreases i, 1
  {
    if i == 0 {
      assert z[..i] + Marker + z[i..] == Marker + z;
      UnmarkMarker(z);
    } else if i >= 3 && z[..3] == Marker {
      UnmarkInsertAfterMarker(z, i);
    } else if i < 3 && forall j :: 0 <= j < i ==> z[j] == '|' {
      UnmarkInsertInPipes(z, i);
    } else {
      UnmarkInsertPast(z, i);
    }
  }

  lemma {:induction false} UnmarkInsertAfterMarker(z: string, i: nat)
    requires 3 <= i <= |z| && z[..3] == Marker
    ensures Unmark(z[..i] + Marker + z[i..]) == Unmark(z)
    decreases i, 0
  {
    var t := z[3..];
    var v := t[..i - 3] + Marker + t[i - 3..];
    assert z[..i] + Marker + z[i..] == Marker + v;
    assert z == Marker + t;
    UnmarkMarker(v);
    UnmarkMarker(t);
    UnmarkInsert(t, i - 3);
  }

  lemma UnmarkInsertInPipes(z: string, i: nat)
    requires 0 < i < 3 && i <= |z| && forall j :: 0 <= j < i ==> z[j] == '|'
    ensures Unmark(z[..i] + Marker + z[i..]) == Unmark(z)
  {
    PipesAbsorbMarker(z, i);
    UnmarkMarker(z);
  }

  /** Inserted just after one or two '|', "|||" reads as if put in front. */
  lemma PipesAbsorbMarker(z: string, i: nat)
    requires 0 < i < 3 && i <= |z| && forall j :: 0 <= j < i ==> z[j] == '|'
    ensures z[..i] + Marker + z[i..] == Marker + z
  {
    var pipes := z[..i];
    if i == 1 {
      assert pipes == "|";
    } else {
      assert pipes == "||";
    }
    assert pipes + Marker == Marker + pipes;
    assert pipes + z[i..] == z;
  }

  lemma {:induction false} UnmarkInsertPast(z: string, i: nat)
    requires 0 < i <= |z|
    requires i >= 3 ==> z[..3] != Marker
    requires i < 3 ==> exists j :: 0 <= j < i && z[j] != '|'
    ensures Unmark(z[..i] + Marker + z[i..]) == Unmark(z)
    decreases i, 0
  {
    var w := z[..i] + Marker + z[i..];
    var t := z[1..];
    var v := t[..i - 1] + Marker + t[i - 1..];
    assert w == [z[0]] + v;
    assert z == [z[0]] + t;
    assert !StartsWithMarker(w) && !StartsWithMarker(z) by {
      if i >= 3 {
        assert w[..3] == z[..3];
      } else {
        var j :| 0 <= j < i && z[j] != '|';
        assert w[j] == z[j];
        assert |z| >= 3 ==> z[..3][j] == z[j];
        assert w[..3][j] == w[j];
      }
    }
    UnmarkCons(z[0], v);
    UnmarkCons(z[0], t);
    UnmarkInsert(t, i - 1);
  }

  /** Putting "|||" in front of every occurrence of a pattern leaves the
      unmarked string as it was, whatever comes before it. */
  lemma {:induction false} ReplaceUnmark(p: string, x: string, pat: string)
    requires pat != []
    ensures Unmark(p + Replace(x, pat, Marker + pat)) == Unmark(p + x)
    decreases |x|, 1
  {
    if |x| < |pat| {
      assert Replace(x, pat, Marker + pat) == x;
    } else if x[..|pat|] == pat {
      ReplaceUnmarkAtMatch(p, x, pat);
    } else {
      ReplaceUnmarkPast(p, x, pat);
    }
  }

  lemma {:induction false} ReplaceUnmarkAtMatch(p: string, x: string, pat: string)
    requires pat != [] && |x| >= |pat| && x[..|pat|] == pat
    ensures Unmark(p + Replace(x, pat, Marker + pat)) == Unmark(p + x)
    decreases |x|, 0
  {
    var rest := x[|pat|..];
    var r := Replace(rest, pat, Marker + pat);
    assert Replace(x, pat, Marker + pat) == (Marker + pat) + r;
    assert p + Replace(x, pat, Marker + pat) == p + (Marker + pat) + r;
    MarkOne(p, pat, r);
    ReplaceUnmark(p + pat, rest, pat);
    assert p + pat + rest == p + x;
  }

  lemma {:induction false} ReplaceUnmarkPast(p: string, x: string, pat: string)
    requires pat != [] && |x| >= |pat| && x[..|pat|] != pat
    ensures Unmark(p + Replace(x, pat, Marker + pat)) == Unmark(p + x)
    decreases |x|, 0
  {
    var rest := x[1..];
    var r := Replace(rest, pat, Marker + pat);
    assert Replace(x, pat, Marker + pat) == [x[0]] + r;
    assert p + Replace(x, pat, Marker + pat) == p + [x[0]] + r;
    ReplaceUnmark(p + [x[0]], rest, pat);
    assert p + [x[0]] + rest == p + x;
  }

  /** One marked occurrence: p + ("|||" + pat) + r unmarks as p + pat + r. */
  lemma MarkOne(p: string, pat: string, r: string)
    ensures Unmark(p + (Marker + pat) + r) == Unmark(p + pat + r)
  {
    var z := p + pat + r;
    assert p + (Marker + pat) + r == z[..|p|] + Marker + z[|p|..];
    UnmarkInsert(z, |p|);
  }

  lemma SubstringOfTail(p: string, s: string)
    requires s != [] && IsSubstring(p, s[1..])
    ensures IsSubstring(p, s)
  {
    var i :| 0 <= i <= |s[1..]| - |p| && OccursAt(p, s[1..], i);
    assert s[i + 1..i + 1 + |p|] == s[1..][i..i + |p|];
    assert OccursAt(p, s, i + 1);
  }

  /** A string without "|||" is its own unmarking. */
  lemma {:induction false} UnmarkClean(s: string)
    requires !IsSubstring(Marker, s)
    ensures Unmark(s) == s
    decreases |s|
  {
    if |s| >= 3 {
      assert !OccursAt(Marker, s, 0);
      if IsSubstring(Marker, s[1..]) {
        SubstringOfTail(Marker, s);
      }
      UnmarkClean(s[1..]);
      assert [s[0]] + s[1..] == s;
    }
  }

  /** The parts of a reply without "|||" concatenate back to the reply. */
  lemma PartsRoundTrip(reply: string)
    requires !IsSubstring(Marker, reply)
    ensures Concat(Parts(reply)) == reply
  {
    var r1 := Replace(reply, HttpsScheme, Marker + HttpsScheme);
    var r2 := Replace(r1, HttpScheme, Marker + HttpScheme);
    SplitUnmark(r2);
    ReplaceUnmark("", r1, HttpScheme);
    ReplaceUnmark("", reply, HttpsScheme);
    assert "" + r2 == r2 && "" + r1 == r1 && "" + reply == reply;
    UnmarkClean(reply);
  }

  // ---------------------------------------------------------------------
  // What the transcript receives
  // ---------------------------------------------------------------------

  /** The transcript receives the reply followed by a newline, provided the
      reply does not itself contain "|||". */
  lemma SegmentsRoundTrip(reply: string)
    requires !IsSubstring(Marker, reply)
    ensures Flatten(Segments(reply)) == reply + "\n"
  {
    if IsSubstring(HttpsScheme, reply) || IsSubstring(HttpScheme, reply) {
      FlattenAppend(SegmentsOf(Parts(reply)), [Segment("\n", false)]);
      FlattenSegmentsOf(Parts(reply));
      PartsRoundTrip(reply);
      assert Texts([Segment("\n", false)]) == ["\n"];
      assert Concat(["\n"]) == "\n";
    } else {
      assert Texts([Segment(reply + "\n", false)]) == [reply + "\n"];
      assert Concat([reply + "\n"]) == reply + "\n";
    }
  }

  /** A link starts with a scheme and holds no terminator. */
  predicate IsLinkText(t: string) {
    IsUrlStart(t) && forall i :: 0 <= i < |t| ==> t[i] !in UrlTerminators
  }

  predicate LinksWellFormed(segs: seq<Segment>) {
    forall k :: 0 <= k < |segs| && segs[k].isLink ==> IsLinkText(segs[k].text)
  }

  /** A scheme holds no terminator, so the URL cut from a part that starts
      with one still starts with it. */
  lemma PartLinksWellFormed(part: string)
    ensures LinksWellFormed(PartSegments(part))
  {
    if IsUrlStart(part) {
      var e := UrlLength(part);
      var scheme := if StartsWith(part, HttpScheme) then HttpScheme else HttpsScheme;
      assert forall i :: 0 <= i < |scheme| ==> scheme[i] !in UrlTerminators;
      assert part[..|scheme|] == scheme;
      assert e >= |scheme|;
      assert part[..e][..|scheme|] == scheme;
      assert IsLinkText(part[..e]);
    }
  }

  lemma {:induction false} SegmentsOfWellFormed(parts: seq<string>)
    ensures LinksWellFormed(SegmentsOf(parts))
  {
    if parts != [] {
      var n := |parts| - 1;
      SegmentsOfWellFormed(parts[..n]);
      PartLinksWellFormed(parts[n]);
    }
  }

  /** Every link written for a reply starts with "http://" or "https://"
      and contains no space, newline or tab. */
  lemma SegmentsLinksWellFormed(reply: string)
    ensures LinksWellFormed(Segments(reply))
  {
    if IsSubstring(HttpsScheme, reply) || IsSubstring(HttpScheme, reply) {
      SegmentsOfWellFormed(Parts(reply));
    }
  }
}

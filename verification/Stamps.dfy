/** Version stamps on one line of text: the patterns of scripts/sync_version.py and their rewriting.

    A line is a string without its newline; a carriage return counts as blank, as it does
    for the regular expressions. Every pattern is read as a single-line pattern.
 */
module Stamps {
  import opened Options
  import opened Sequences

  predicate IsDigit(c: char) { '0' <= c <= '9' }

  predicate IsBlank(c: char) { c == ' ' || c == '\t' || c == '\r' || c == 11 as char || c == 12 as char }

  predicate AllDigits(s: string) { forall i :: 0 <= i < |s| ==> IsDigit(s[i]) }

  predicate AllBlank(s: string) { forall i :: 0 <= i < |s| ==> IsBlank(s[i]) }

  /** t repeats the characters of s from i up to e, shifted by d. */
  predicate SameText(s: string, t: string, i: nat, e: nat, d: int) {
    i <= e <= |s| && 0 <= i + d && e + d <= |t| && forall k :: i <= k < e ==> t[k + d] == s[k]
  }

  // End of the run of digits that starts at i.
  function DigitEnd(s: string, i: nat): (e: nat)
    requires i <= |s|
    ensures i <= e <= |s| && (forall k :: i <= k < e ==> IsDigit(s[k])) && (e < |s| ==> !IsDigit(s[e]))
    decreases |s| - i
  {
    if i == |s| || !IsDigit(s[i]) then i else DigitEnd(s, i + 1)
  }

  // End of the run of blanks that starts at i.
  function BlankEnd(s: string, i: nat): (e: nat)
    requires i <= |s|
    ensures i <= e <= |s| && (forall k :: i <= k < e ==> IsBlank(s[k])) && (e < |s| ==> !IsBlank(s[e]))
    decreases |s| - i
  {
    if i == |s| || !IsBlank(s[i]) then i else BlankEnd(s, i + 1)
  }

  lemma DigitEndLocal(s: string, t: string, i: nat, e: nat, d: int)
    requires i <= |s| && DigitEnd(s, i) == e && SameText(s, t, i, e, d)
    requires e + d < |t| ==> !IsDigit(t[e + d])
    ensures DigitEnd(t, i + d) == e + d
  {
    forall k | i + d <= k < e + d ensures IsDigit(t[k]) {
      assert IsDigit(s[k - d]);
    }
    DigitEndIs(t, i + d, e + d);
  }

  lemma DigitEndIs(s: string, i: nat, e: nat)
    requires i <= e <= |s| && (forall k :: i <= k < e ==> IsDigit(s[k])) && (e < |s| ==> !IsDigit(s[e]))
    ensures DigitEnd(s, i) == e
  {
  }

  lemma BlankEndIs(s: string, i: nat, e: nat)
    requires i <= e <= |s| && (forall k :: i <= k < e ==> IsBlank(s[k])) && (e < |s| ==> !IsBlank(s[e]))
    ensures BlankEnd(s, i) == e
  {
  }

  /* ---- MAJOR.MINOR.PATCH ---- */

  datatype Version = Version(major: string, minor: string, patch: string) {
    predicate Valid() {
      major != "" && minor != "" && patch != "" && AllDigits(major) && AllDigits(minor) && AllDigits(patch)
    }

    function Text(): string { major + "." + minor + "." + patch }
  }

  /** End of the match of \d+\.\d+\.\d+ at position i. */
  function SemverEnd(s: string, i: nat): (r: Option<nat>)
    requires i <= |s|
    ensures r.Some? ==> i + 5 <= r.value <= |s| && IsDigit(s[i])
    ensures r.Some? ==> forall k :: i <= k < r.value ==> IsDigit(s[k]) || s[k] == '.'
  {
    var a := DigitEnd(s, i);
    if a == i || a == |s| || s[a] != '.' then None
    else
      var b := DigitEnd(s, a + 1);
      if b == a + 1 || b == |s| || s[b] != '.' then None
      else
        var c := DigitEnd(s, b + 1);
        if c == b + 1 then None else Some(c)
  }

  lemma TextAtConcat(s: string, i: nat, a: string, b: string)
    requires TextAt(s, i, a + b)
    ensures TextAt(s, i, a) && TextAt(s, i + |a|, b)
  {
    forall k | 0 <= k < |a| ensures s[i + k] == a[k] {
      assert (a + b)[k] == a[k];
    }
    forall k | 0 <= k < |b| ensures s[i + |a| + k] == b[k] {
      assert s[i + (|a| + k)] == (a + b)[|a| + k] == b[k];
    }
  }

  // The five pieces of a version text.
  lemma TextPieces(s: string, i: nat, v: Version)
    requires TextAt(s, i, v.Text())
    ensures var a, b := i + |v.major|, i + |v.major| + 1 + |v.minor|;
            && TextAt(s, i, v.major) && TextAt(s, a + 1, v.minor) && TextAt(s, b + 1, v.patch)
            && s[a] == '.' && s[b] == '.' && b + 1 + |v.patch| == i + |v.Text()|
  {
    TextAtConcat(s, i, v.major + "." + v.minor + ".", v.patch);
    TextAtConcat(s, i, v.major + "." + v.minor, ".");
    TextAtConcat(s, i, v.major + ".", v.minor);
    TextAtConcat(s, i, v.major, ".");
    CharAt(s, i + |v.major|, ".", 0);
    CharAt(s, i + |v.major| + 1 + |v.minor|, ".", 0);
  }

  // The three runs of digits of a version text.
  lemma TextRuns(s: string, i: nat, v: Version)
    requires v.Valid() && TextAt(s, i, v.Text())
    requires i + |v.Text()| < |s| ==> !IsDigit(s[i + |v.Text()|])
    ensures var a, b := i + |v.major|, i + |v.major| + 1 + |v.minor|;
            Runs(s, i, a, b, b + 1 + |v.patch|) && b + 1 + |v.patch| == i + |v.Text()|
  {
    var a, b := i + |v.major|, i + |v.major| + 1 + |v.minor|;
    TextPieces(s, i, v);
    DigitRun(s, i, v.major);
    DigitRun(s, a + 1, v.minor);
    DigitRun(s, b + 1, v.patch);
  }

  /** Three runs of digits, from i to a, from a + 1 to b and from b + 1 to c, and the dots between them. */
  predicate Runs(s: string, i: nat, a: nat, b: nat, c: nat) {
    && i < a < |s| && s[a] == '.' && a + 1 < b < |s| && s[b] == '.' && b + 1 < c
    && DigitEnd(s, i) == a && DigitEnd(s, a + 1) == b && DigitEnd(s, b + 1) == c
  }

  lemma SemverEndOfRuns(s: string, i: nat, a: nat, b: nat, c: nat)
    requires Runs(s, i, a, b, c)
    ensures SemverEnd(s, i) == Some(c)
  {
  }

  lemma RunsOfSemverEnd(s: string, i: nat)
    requires i <= |s| && SemverEnd(s, i).Some?
    ensures var a := DigitEnd(s, i); a < |s| && Runs(s, i, a, DigitEnd(s, a + 1), SemverEnd(s, i).value)
  {
  }

  /** A version text is matched to its end, unless more digits follow it. */
  lemma SemverEndOfText(s: string, i: nat, v: Version)
    requires v.Valid() && TextAt(s, i, v.Text())
    requires i + |v.Text()| < |s| ==> !IsDigit(s[i + |v.Text()|])
    ensures SemverEnd(s, i) == Some(i + |v.Text()|)
  {
    var a, b := i + |v.major|, i + |v.major| + 1 + |v.minor|;
    TextRuns(s, i, v);
    SemverEndOfRuns(s, i, a, b, b + 1 + |v.patch|);
  }

  lemma DigitRun(s: string, i: nat, digits: string)
    requires TextAt(s, i, digits) && AllDigits(digits)
    requires i + |digits| < |s| ==> !IsDigit(s[i + |digits|])
    ensures DigitEnd(s, i) == i + |digits|
  {
    forall k | i <= k < i + |digits| ensures IsDigit(s[k]) {
      assert s[i + (k - i)] == digits[k - i];
    }
    DigitEndIs(s, i, i + |digits|);
  }

  /** A match depends on the matched characters and on the next one only. */
  lemma SemverEndLocal(s: string, t: string, i: nat, e: nat, d: int)
    requires i <= |s| && SemverEnd(s, i) == Some(e) && SameText(s, t, i, e, d)
    requires e + d < |t| ==> !IsDigit(t[e + d])
    ensures SemverEnd(t, i + d) == Some(e + d)
  {
    RunsOfSemverEnd(s, i);
    var a := DigitEnd(s, i);
    var b := DigitEnd(s, a + 1);
    RunsLocal(s, t, i, a, b, e, d);
    SemverEndOfRuns(t, i + d, a + d, b + d, e + d);
  }

  lemma RunsLocal(s: string, t: string, i: nat, a: nat, b: nat, c: nat, d: int)
    requires Runs(s, i, a, b, c) && SameText(s, t, i, c, d)
    requires c + d < |t| ==> !IsDigit(t[c + d])
    ensures Runs(t, i + d, a + d, b + d, c + d)
  {
    assert t[a + d] == s[a] && t[b + d] == s[b];
    DigitEndLocal(s, t, i, a, d);
    DigitEndLocal(s, t, a + 1, b, d);
    DigitEndLocal(s, t, b + 1, c, d);
  }

  /* ---- Line patterns: a prefix, a number or version, blanks to the end ---- */

  datatype Pattern = Core | Lit(text: string, rest: Pattern) | Blank0(rest: Pattern) | Blank1(rest: Pattern)

  /** End of what the pattern matches before its core; every blank takes all it can. */
  function PrefixEnd(pattern: Pattern, s: string, i: nat): (r: Option<nat>)
    requires i <= |s|
    ensures r.Some? ==> i <= r.value <= |s|
  {
    match pattern
    case Core => Some(i)
    case Lit(text, rest) => if TextAt(s, i, text) then PrefixEnd(rest, s, i + |text|) else None
    case Blank0(rest) => PrefixEnd(rest, s, BlankEnd(s, i))
    case Blank1(rest) => if BlankEnd(s, i) == i then None else PrefixEnd(rest, s, BlankEnd(s, i))
  }

  // What comes after the prefix does not matter, as long as it does not start with a blank.
  lemma {:induction false} PrefixEndLocal(pattern: Pattern, s: string, t: string, i: nat, n: nat)
    requires i <= n < |s| && PrefixEnd(pattern, s, i) == Some(n) && n < |t|
    requires forall k :: 0 <= k < n ==> t[k] == s[k]
    requires !IsBlank(s[n]) && !IsBlank(t[n])
    ensures PrefixEnd(pattern, t, i) == Some(n)
  {
    match pattern
    case Core =>
    case Lit(text, rest) =>
      PrefixEndLocal(rest, s, t, i + |text|, n);
      assert forall k :: 0 <= k < |text| ==> t[i + k] == text[k];
    case _ =>
      var e := BlankEnd(s, i);
      BlankEndIs(t, i, e);
      PrefixEndLocal(pattern.rest, s, t, e, n);
  }

  datatype Part = Full | Major | Minor | Patch

  function Expand(part: Part, v: Version): string {
    match part
    case Full => v.Text()
    case Major => v.major
    case Minor => v.minor
    case Patch => v.patch
  }

  function CoreEnd(part: Part, s: string, i: nat): (r: Option<nat>)
    requires i <= |s|
    ensures r.Some? ==> i < r.value <= |s| && IsDigit(s[i])
    ensures r.Some? ==> forall k :: i <= k < r.value ==> IsDigit(s[k]) || s[k] == '.'
  {
    if part == Full then SemverEnd(s, i)
    else if DigitEnd(s, i) == i then None else Some(DigitEnd(s, i))
  }

  lemma CoreEndOfExpansion(s: string, i: nat, part: Part, v: Version)
    requires v.Valid() && TextAt(s, i, Expand(part, v))
    requires i + |Expand(part, v)| < |s| ==> !IsDigit(s[i + |Expand(part, v)|])
    ensures CoreEnd(part, s, i) == Some(i + |Expand(part, v)|)
  {
    if part == Full {
      SemverEndOfText(s, i, v);
    } else {
      DigitRun(s, i, Expand(part, v));
    }
  }

  datatype Stamp = Stamp(prefix: string, core: string, suffix: string) {
    function Line(): string { prefix + core + suffix }
  }

  /** The three parts of a line that the pattern matches from end to end. */
  function MatchLine(pattern: Pattern, part: Part, line: string): (r: Option<Stamp>)
    ensures r.Some? ==> r.value.Line() == line
    ensures r.Some? ==> r.value.core != "" && IsDigit(r.value.core[0]) && AllBlank(r.value.suffix)
  {
    match PrefixEnd(pattern, line, 0)
    case None => None
    case Some(n) =>
      match CoreEnd(part, line, n)
      case None => None
      case Some(m) =>
        assert line == line[..n] + line[n..m] + line[m..];
        if AllBlank(line[m..]) then Some(Stamp(line[..n], line[n..m], line[m..])) else None
  }

  function RewriteLine(pattern: Pattern, part: Part, line: string, v: Version): string {
    match MatchLine(pattern, part, line)
    case None => line
    case Some(stamp) => stamp.(core := Expand(part, v)).Line()
  }

  lemma ExpansionStartsWithDigit(part: Part, v: Version)
    requires v.Valid()
    ensures Expand(part, v) != "" && IsDigit(Expand(part, v)[0])
  {
    assert v.Text()[0] == v.major[0];
  }

  /** A rewritten line is recognised again, with the same prefix and suffix. */
  lemma RewrittenLineMatches(pattern: Pattern, part: Part, line: string, v: Version)
    requires v.Valid() && MatchLine(pattern, part, line).Some?
    ensures MatchLine(pattern, part, RewriteLine(pattern, part, line, v))
            == Some(MatchLine(pattern, part, line).value.(core := Expand(part, v)))
  {
    var stamp := MatchLine(pattern, part, line).value;
    RewrittenPrefix(pattern, part, line, v);
    MatchFromParts(pattern, part, stamp.prefix, v, stamp.suffix);
  }

  lemma RewrittenPrefix(pattern: Pattern, part: Part, line: string, v: Version)
    requires v.Valid() && MatchLine(pattern, part, line).Some?
    ensures var stamp := MatchLine(pattern, part, line).value;
            PrefixEnd(pattern, stamp.prefix + Expand(part, v) + stamp.suffix, 0) == Some(|stamp.prefix|)
  {
    StampParts(pattern, part, line);
    var stamp := MatchLine(pattern, part, line).value;
    SamePrefix(pattern, line, |stamp.prefix|, part, v, stamp.suffix);
  }

  lemma SamePrefix(pattern: Pattern, line: string, n: nat, part: Part, v: Version, suffix: string)
    requires v.Valid() && n < |line| && PrefixEnd(pattern, line, 0) == Some(n) && IsDigit(line[n])
    ensures PrefixEnd(pattern, line[..n] + Expand(part, v) + suffix, 0) == Some(n)
  {
    var t := line[..n] + Expand(part, v) + suffix;
    ExpansionStartsWithDigit(part, v);
    assert t[n] == Expand(part, v)[0];
    PrefixEndLocal(pattern, line, t, 0, n);
  }

  lemma StampParts(pattern: Pattern, part: Part, line: string)
    requires MatchLine(pattern, part, line).Some?
    ensures var n := |MatchLine(pattern, part, line).value.prefix|;
            n < |line| && PrefixEnd(pattern, line, 0) == Some(n) && IsDigit(line[n])
            && MatchLine(pattern, part, line).value.prefix == line[..n]
  {
  }

  lemma MatchFromParts(pattern: Pattern, part: Part, prefix: string, v: Version, suffix: string)
    requires v.Valid() && AllBlank(suffix)
    requires PrefixEnd(pattern, prefix + Expand(part, v) + suffix, 0) == Some(|prefix|)
    ensures MatchLine(pattern, part, prefix + Expand(part, v) + suffix) == Some(Stamp(prefix, Expand(part, v), suffix))
  {
    var text := Expand(part, v);
    var t := prefix + text + suffix;
    ThreeParts(prefix, text, suffix);
    CoreEndOfExpansion(t, |prefix|, part, v);
  }

  lemma ThreeParts(a: string, b: string, c: string)
    ensures var t, n, m := a + b + c, |a|, |a| + |b|;
            && TextAt(t, n, b) && (m < |t| ==> t[m] == c[0])
            && t[..n] == a && t[n..m] == b && t[m..] == c
  {
  }

  /* ---- (vX.Y.Z) markers, anywhere on the line ---- */

  /** End of the marker at position i. */
  function MarkerEnd(s: string, i: nat): (r: Option<nat>)
    ensures r.Some? ==> i + 8 <= r.value <= |s| && s[i] == '(' && s[i + 1] == 'v' && s[r.value - 1] == ')'
    ensures r.Some? ==> forall k :: i < k < r.value ==> s[k] != '('
  {
    if i + 2 > |s| || s[i] != '(' || s[i + 1] != 'v' then None
    else
      match SemverEnd(s, i + 2)
      case None => None
      case Some(e) => if e < |s| && s[e] == ')' then Some(e + 1) else None
  }

  function Marker(v: Version): string { "(v" + v.Text() + ")" }

  /** Replaces every marker, scanning from the left. */
  function RewriteMarkers(s: string, v: Version): string
    decreases |s|
  {
    if s == "" then ""
    else
      match MarkerEnd(s, 0)
      case Some(n) => Marker(v) + RewriteMarkers(s[n..], v)
      case None => [s[0]] + RewriteMarkers(s[1..], v)
  }

  lemma MarkerEndOfMarker(s: string, i: nat, v: Version)
    requires v.Valid() && TextAt(s, i, Marker(v))
    ensures MarkerEnd(s, i) == Some(i + |Marker(v)|)
  {
    var m, text := Marker(v), v.Text();
    assert m[0] == '(' && m[1] == 'v' && m[|text| + 2] == ')';
    forall k | 0 <= k < |text| ensures s[i + 2 + k] == text[k] {
      assert s[i + (2 + k)] == m[2 + k] == text[k];
    }
    assert s[i + 0] == '(' && s[i + 1] == 'v' && s[i + (|text| + 2)] == ')';
    SemverEndOfText(s, i + 2, v);
  }

  lemma MarkerEndLocal(s: string, t: string, i: nat, e: nat, d: int)
    requires MarkerEnd(s, i) == Some(e) && SameText(s, t, i, e, d)
    ensures MarkerEnd(t, i + d) == Some(e + d)
  {
    assert s[i] == '(' && s[i + 1] == 'v' && s[e - 1] == ')';
    SemverEndLocal(s, t, i + 2, e - 1, d);
  }

  // Up to the first '(' nothing has been rewritten.
  lemma {:induction false} UnrewrittenStart(s: string, v: Version, m: nat)
    requires m <= |RewriteMarkers(s, v)|
    requires forall k :: 0 <= k < m ==> RewriteMarkers(s, v)[k] != '('
    ensures SameText(RewriteMarkers(s, v), s, 0, m, 0)
    decreases |s|
  {
    if m > 0 {
      var t := RewriteMarkers(s, v);
      assert t[0] != '(';
      assert MarkerEnd(s, 0) == None;
      var u := RewriteMarkers(s[1..], v);
      assert t == [s[0]] + u;
      forall k | 0 <= k < m - 1 ensures u[k] != '(' {
        assert t[k + 1] == u[k];
      }
      UnrewrittenStart(s[1..], v, m - 1);
      forall k | 0 <= k < m ensures s[k] == t[k] {
        assert k > 0 ==> s[k] == s[1..][k - 1] == u[k - 1];
      }
    }
  }

  lemma FirstKept(s: string, v: Version)
    requires s != "" && s[0] != '('
    ensures RewriteMarkers(s, v) == [s[0]] + RewriteMarkers(s[1..], v)
  {
  }

  lemma {:induction false} HeadKept(s: string, v: Version, m: nat)
    requires m <= |s| && forall k :: 0 <= k < m ==> s[k] != '('
    ensures RewriteMarkers(s, v) == s[..m] + RewriteMarkers(s[m..], v)
  {
    if m > 0 {
      HeadKept(s, v, m - 1);
      var rest := s[m - 1..];
      FirstKept(rest, v);
      assert rest[1..] == s[m..] && s[..m] == s[..m - 1] + [rest[0]];
    } else {
      assert s[0..] == s;
    }
  }

  /** Rewriting does not create a marker where there was none. */
  lemma NoNewMarker(s: string, v: Version)
    requires s != "" && MarkerEnd(s, 0) == None
    ensures MarkerEnd(RewriteMarkers(s, v), 0) == None
  {
    var t := RewriteMarkers(s, v);
    match MarkerEnd(t, 0)
    case None =>
    case Some(n) =>
      UnrewrittenNext(s, v, n);
      MarkerEndLocal(t, s, 0, n, 0);
  }

  lemma UnrewrittenNext(s: string, v: Version, n: nat)
    requires s != "" && MarkerEnd(s, 0) == None && 0 < n <= |RewriteMarkers(s, v)|
    requires forall k :: 0 < k < n ==> RewriteMarkers(s, v)[k] != '('
    ensures SameText(RewriteMarkers(s, v), s, 0, n, 0)
  {
    var t, u := RewriteMarkers(s, v), RewriteMarkers(s[1..], v);
    assert t == [s[0]] + u;
    forall k | 0 <= k < n - 1 ensures u[k] != '(' {
      assert t[k + 1] == u[k];
    }
    UnrewrittenStart(s[1..], v, n - 1);
    forall k | 0 <= k < n ensures s[k] == t[k] {
      assert k > 0 ==> s[k] == s[1..][k - 1] == u[k - 1];
    }
  }

  /** The last version written wins: rewriting to v and then to w is rewriting to w. */
  lemma {:induction false} RewriteMarkersAbsorbs(s: string, v: Version, w: Version)
    requires v.Valid()
    ensures RewriteMarkers(RewriteMarkers(s, v), w) == RewriteMarkers(s, w)
    decreases |s|
  {
    if s != "" {
      var t := RewriteMarkers(s, v);
      match MarkerEnd(s, 0)
      case Some(n) =>
        MarkerEndOfMarker(t, 0, v);
        assert t[|Marker(v)|..] == RewriteMarkers(s[n..], v);
        RewriteMarkersAbsorbs(s[n..], v, w);
      case None =>
        NoNewMarker(s, v);
        assert t[1..] == RewriteMarkers(s[1..], v);
        RewriteMarkersAbsorbs(s[1..], v, w);
    }
  }

  /* ---- Only digits change ---- */

  /** A line without its digits. */
  function NonDigits(s: string): string {
    if s == "" then "" else (if IsDigit(s[0]) then "" else [s[0]]) + NonDigits(s[1..])
  }

  lemma {:induction false} NonDigitsConcat(a: string, b: string)
    ensures NonDigits(a + b) == NonDigits(a) + NonDigits(b)
  {
    if a == "" {
      assert a + b == b;
    } else {
      assert (a + b)[1..] == a[1..] + b;
      NonDigitsConcat(a[1..], b);
    }
  }

  lemma {:induction false} DigitsVanish(s: string)
    requires AllDigits(s)
    ensures NonDigits(s) == ""
  {
    if s != "" {
      DigitsVanish(s[1..]);
    }
  }

  lemma VersionDots(v: Version)
    requires v.Valid()
    ensures NonDigits(v.Text()) == ".."
  {
    DigitsVanish(v.major);
    DigitsVanish(v.minor);
    DigitsVanish(v.patch);
    NonDigitsConcat(v.major + "." + v.minor + ".", v.patch);
    NonDigitsConcat(v.major + "." + v.minor, ".");
    NonDigitsConcat(v.major + ".", v.minor);
    NonDigitsConcat(v.major, ".");
  }

  /** The version that the match at position i spells. */
  function VersionAt(s: string, i: nat): (r: Option<Version>)
    requires i <= |s|
    ensures r.Some? <==> SemverEnd(s, i).Some?
    ensures r.Some? ==> r.value.Valid() && s[i..SemverEnd(s, i).value] == r.value.Text()
  {
    match SemverEnd(s, i)
    case None => None
    case Some(e) =>
      var a := DigitEnd(s, i);
      var b := DigitEnd(s, a + 1);
      assert s[i..e] == s[i..a] + "." + s[a + 1..b] + "." + s[b + 1..e];
      Some(Version(s[i..a], s[a + 1..b], s[b + 1..e]))
  }

  /** ... and reading a version text back gives that version. */
  lemma VersionAtText(s: string, i: nat, v: Version)
    requires v.Valid() && TextAt(s, i, v.Text())
    requires i + |v.Text()| < |s| ==> !IsDigit(s[i + |v.Text()|])
    ensures SemverEnd(s, i) == Some(i + |v.Text()|) && VersionAt(s, i) == Some(v)
  {
    var a, b := i + |v.major|, i + |v.major| + 1 + |v.minor|;
    TextRuns(s, i, v);
    VersionAtRuns(s, i, a, b, b + 1 + |v.patch|);
    VersionSlices(s, i, v);
  }

  lemma VersionSlices(s: string, i: nat, v: Version)
    requires TextAt(s, i, v.Text())
    ensures var a, b := i + |v.major|, i + |v.major| + 1 + |v.minor|;
            v == Version(s[i..a], s[a + 1..b], s[b + 1..b + 1 + |v.patch|])
  {
    TextPieces(s, i, v);
    TextSlice(s, i, v.major);
    TextSlice(s, i + |v.major| + 1, v.minor);
    TextSlice(s, i + |v.major| + 1 + |v.minor| + 1, v.patch);
  }

  lemma VersionAtRuns(s: string, i: nat, a: nat, b: nat, c: nat)
    requires Runs(s, i, a, b, c)
    ensures SemverEnd(s, i) == Some(c) && VersionAt(s, i) == Some(Version(s[i..a], s[a + 1..b], s[b + 1..c]))
  {
    SemverEndOfRuns(s, i, a, b, c);
  }

  lemma TextSlice(s: string, i: nat, text: string)
    requires TextAt(s, i, text)
    ensures s[i..i + |text|] == text
  {
  }

  lemma CoreNonDigits(part: Part, s: string, i: nat, v: Version)
    requires i <= |s| && CoreEnd(part, s, i).Some? && v.Valid()
    ensures NonDigits(s[i..CoreEnd(part, s, i).value]) == NonDigits(Expand(part, v))
  {
    if part == Full {
      VersionDots(VersionAt(s, i).value);
      VersionDots(v);
    } else {
      DigitsVanish(s[i..DigitEnd(s, i)]);
      DigitsVanish(Expand(part, v));
    }
  }

  /** Rewriting a stamped line changes digits only. */
  lemma RewriteLineKeepsNonDigits(pattern: Pattern, part: Part, line: string, v: Version)
    requires v.Valid()
    ensures NonDigits(RewriteLine(pattern, part, line, v)) == NonDigits(line)
  {
    match MatchLine(pattern, part, line)
    case None =>
    case Some(stamp) =>
      CoreNonDigits(part, line, PrefixEnd(pattern, line, 0).value, v);
      NonDigitsConcat(stamp.prefix + stamp.core, stamp.suffix);
      NonDigitsConcat(stamp.prefix, stamp.core);
      NonDigitsConcat(stamp.prefix + Expand(part, v), stamp.suffix);
      NonDigitsConcat(stamp.prefix, Expand(part, v));
  }

  lemma MarkerNonDigits(s: string, v: Version)
    requires v.Valid() && MarkerEnd(s, 0).Some?
    ensures NonDigits(s[..MarkerEnd(s, 0).value]) == NonDigits(Marker(v))
  {
    var n := MarkerEnd(s, 0).value;
    var u := VersionAt(s, 2).value;
    assert s[..n] == "(v" + u.Text() + ")";
    forall w: Version | w.Valid() ensures NonDigits(Marker(w)) == NonDigits("(v") + ".." + NonDigits(")") {
      VersionDots(w);
      NonDigitsConcat("(v" + w.Text(), ")");
      NonDigitsConcat("(v", w.Text());
    }
    assert s[..n] == Marker(u);
  }

  lemma {:induction false} RewriteMarkersKeepsNonDigits(s: string, v: Version)
    requires v.Valid()
    ensures NonDigits(RewriteMarkers(s, v)) == NonDigits(s)
    decreases |s|
  {
    if s != "" {
      match MarkerEnd(s, 0)
      case Some(n) =>
        MarkerNonDigits(s, v);
        RewriteMarkersKeepsNonDigits(s[n..], v);
        NonDigitsConcat(s[..n], s[n..]);
        NonDigitsConcat(Marker(v), RewriteMarkers(s[n..], v));
        assert s == s[..n] + s[n..];
      case None =>
        RewriteMarkersKeepsNonDigits(s[1..], v);
        NonDigitsConcat([s[0]], s[1..]);
        NonDigitsConcat([s[0]], RewriteMarkers(s[1..], v));
        assert s == [s[0]] + s[1..];
    }
  }
}

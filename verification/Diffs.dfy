/** What scripts/sync_branch.py calls a substantive change: its reading of a diff, and what
    an empty reading guarantees about the two sides of the diff.
 */
module Diffs {
  import opened Options
  import opened Sequences
  import opened Stamps

  /* ---- Stamp-like lines ---- */

  predicate VersionWordAt(s: string, i: nat) { TextAt(s, i, "Version") || TextAt(s, i, "version") }

  predicate HasMacroName(s: string) { exists i: nat :: i <= |s| && TextAt(s, i, "LIBEMBEDDING_VERSION") }

  predicate HasVersionStamp(s: string) {
    exists i: nat, j: nat :: i + 7 <= j <= |s| && VersionWordAt(s, i) && SemverEnd(s, j).Some?
  }

  predicate HasMarker(s: string) { exists i: nat :: i <= |s| && MarkerEnd(s, i).Some? }

  /** STAMP_LIKE.search */
  predicate StampLike(s: string) { HasMacroName(s) || HasVersionStamp(s) || HasMarker(s) }

  function TrimRight(s: string): (r: string)
    ensures |r| <= |s| && r == s[..|r|] && AllBlank(s[|r|..]) && (r != "" ==> !IsBlank(r[|r| - 1]))
  {
    if s != "" && IsBlank(s[|s| - 1]) then
      var r := TrimRight(s[..|s| - 1]);
      assert forall k :: 0 <= k < |s| - |r| - 1 ==> s[|r|..][k] == s[..|s| - 1][|r|..][k];
      r
    else s
  }

  function Strip(s: string): string { TrimRight(s[BlankEnd(s, 0)..]) }

  lemma StripParts(s: string)
    ensures var a, t := BlankEnd(s, 0), Strip(s);
            && a + |t| <= |s| && t == s[a..a + |t|]
            && (forall k :: a + |t| <= k < |s| ==> IsBlank(s[k]))
            && (forall k :: 0 <= k < a ==> IsBlank(s[k]))
  {
    var a := BlankEnd(s, 0);
    var u := s[a..];
    var t := TrimRight(u);
    forall k | a + |t| <= k < |s| ensures IsBlank(s[k]) {
      assert u[|t|..][k - a - |t|] == s[k];
    }
  }

  /** Surrounding blanks play no role in being stamp-like. */
  lemma StripKeepsStampLike(s: string)
    ensures StampLike(Strip(s)) <==> StampLike(s)
    ensures Strip(s) == "" <==> AllBlank(s)
  {
    StripParts(s);
    var a, t := BlankEnd(s, 0), Strip(s);
    var b := a + |t|;
    if StampLike(s) {
      StampLikeInside(s, a, b);
    }
    if StampLike(t) {
      StampLikeOutside(s, a, b);
    }
  }

  // Every pattern begins and ends with a character that is not blank.
  lemma StampLikeInside(s: string, a: nat, b: nat)
    requires a <= b <= |s| && StampLike(s)
    requires forall k :: 0 <= k < a || b <= k < |s| ==> IsBlank(s[k])
    ensures StampLike(s[a..b])
  {
    if HasMacroName(s) {
      var i: nat :| i <= |s| && TextAt(s, i, "LIBEMBEDDING_VERSION");
      ShiftText(s, i, "LIBEMBEDDING_VERSION", a, b);
    } else if HasVersionStamp(s) {
      VersionStampInside(s, a, b);
    } else {
      var i: nat :| i <= |s| && MarkerEnd(s, i).Some?;
      MarkerInside(s, i, a, b);
    }
  }

  lemma VersionStampInside(s: string, a: nat, b: nat)
    requires a <= b <= |s| && HasVersionStamp(s)
    requires forall k :: 0 <= k < a || b <= k < |s| ==> IsBlank(s[k])
    ensures HasVersionStamp(s[a..b])
  {
    var i: nat, j: nat :| i + 7 <= j <= |s| && VersionWordAt(s, i) && SemverEnd(s, j).Some?;
    WordInside(s, i, a, b);
    SemverInside(s, j, a, b);
    assert VersionWordAt(s[a..b], i - a) && SemverEnd(s[a..b], j - a).Some?;
  }

  lemma WordInside(s: string, i: nat, a: nat, b: nat)
    requires a <= b <= |s| && VersionWordAt(s, i)
    requires forall k :: 0 <= k < a || b <= k < |s| ==> IsBlank(s[k])
    ensures a <= i && VersionWordAt(s[a..b], i - a)
  {
    if TextAt(s, i, "Version") {
      ShiftText(s, i, "Version", a, b);
    } else {
      ShiftText(s, i, "version", a, b);
    }
  }

  lemma SemverInside(s: string, j: nat, a: nat, b: nat)
    requires a <= b <= |s| && j <= |s| && SemverEnd(s, j).Some?
    requires forall k :: 0 <= k < a || b <= k < |s| ==> IsBlank(s[k])
    ensures a <= j < b && SemverEnd(s[a..b], j - a).Some?
  {
    SemverWithin(s, j, a, b);
    SemverEndLocal(s, s[a..b], j, SemverEnd(s, j).value, -(a as int));
  }

  lemma SemverWithin(s: string, j: nat, a: nat, b: nat)
    requires a <= b <= |s| && j <= |s| && SemverEnd(s, j).Some?
    requires forall k :: 0 <= k < a || b <= k < |s| ==> IsBlank(s[k])
    ensures a <= j && SemverEnd(s, j).value <= b
  {
    var e := SemverEnd(s, j).value;
    SemverEndsInDigit(s, j);
    assert !IsBlank(s[j]) && !IsBlank(s[e - 1]);
  }

  lemma MarkerInside(s: string, i: nat, a: nat, b: nat)
    requires a <= b <= |s| && i <= |s| && MarkerEnd(s, i).Some?
    requires forall k :: 0 <= k < a || b <= k < |s| ==> IsBlank(s[k])
    ensures a <= i <= b && MarkerEnd(s[a..b], i - a).Some?
  {
    MarkerWithin(s, i, a, b);
    MarkerShifts(s, i, a, b);
  }

  lemma MarkerWithin(s: string, i: nat, a: nat, b: nat)
    requires a <= b <= |s| && i <= |s| && MarkerEnd(s, i).Some?
    requires forall k :: 0 <= k < a || b <= k < |s| ==> IsBlank(s[k])
    ensures a <= i && MarkerEnd(s, i).value <= b
  {
    assert !IsBlank(s[i]) && !IsBlank(s[MarkerEnd(s, i).value - 1]);
  }

  lemma MarkerShifts(s: string, i: nat, a: nat, b: nat)
    requires MarkerEnd(s, i).Some? && a <= i <= MarkerEnd(s, i).value <= b <= |s|
    ensures MarkerEnd(s[a..b], i - a).Some?
  {
    var e := MarkerEnd(s, i).value;
    SameInside(s, i, e, a, b);
    MarkerEndLocal(s, s[a..b], i, e, -(a as int));
  }

  lemma SameInside(s: string, i: nat, e: nat, a: nat, b: nat)
    requires a <= i <= e <= b <= |s|
    ensures SameText(s, s[a..b], i, e, -(a as int))
  {
  }

  lemma ShiftText(s: string, i: nat, text: string, a: nat, b: nat)
    requires a <= b <= |s| && TextAt(s, i, text) && text != ""
    requires !IsBlank(text[0]) && !IsBlank(text[|text| - 1])
    requires forall k :: 0 <= k < a || b <= k < |s| ==> IsBlank(s[k])
    ensures a <= i && TextAt(s[a..b], i - a, text)
  {
    assert s[i + 0] == text[0] && s[i + (|text| - 1)] == text[|text| - 1];
  }

  lemma SemverEndsInDigit(s: string, i: nat)
    requires i <= |s| && SemverEnd(s, i).Some?
    ensures IsDigit(s[SemverEnd(s, i).value - 1])
  {
  }

  lemma StampLikeOutside(s: string, a: nat, b: nat)
    requires a <= b <= |s| && StampLike(s[a..b])
    requires forall k :: b <= k < |s| ==> IsBlank(s[k])
    ensures StampLike(s)
  {
    var t := s[a..b];
    if HasMacroName(t) {
      MacroNameOutside(s, a, b);
    } else if HasVersionStamp(t) {
      VersionStampOutside(s, a, b);
    } else {
      MarkerOutside(s, a, b);
    }
  }

  lemma MacroNameOutside(s: string, a: nat, b: nat)
    requires a <= b <= |s| && HasMacroName(s[a..b])
    ensures HasMacroName(s)
  {
    var t := s[a..b];
    var i: nat :| i <= |t| && TextAt(t, i, "LIBEMBEDDING_VERSION");
    UnshiftText(s, i, "LIBEMBEDDING_VERSION", a, b);
  }

  lemma MarkerOutside(s: string, a: nat, b: nat)
    requires a <= b <= |s| && HasMarker(s[a..b])
    ensures HasMarker(s)
  {
    var t := s[a..b];
    var i: nat :| i <= |t| && MarkerEnd(t, i).Some?;
    MarkerEndLocal(t, s, i, MarkerEnd(t, i).value, a);
    assert MarkerEnd(s, i + a).Some?;
  }

  lemma VersionStampOutside(s: string, a: nat, b: nat)
    requires a <= b <= |s| && HasVersionStamp(s[a..b])
    requires forall k :: b <= k < |s| ==> IsBlank(s[k])
    ensures HasVersionStamp(s)
  {
    var t := s[a..b];
    var i: nat, j: nat :| i + 7 <= j <= |t| && VersionWordAt(t, i) && SemverEnd(t, j).Some?;
    if TextAt(t, i, "Version") {
      UnshiftText(s, i, "Version", a, b);
    } else {
      UnshiftText(s, i, "version", a, b);
    }
    SemverOutside(s, j, a, b);
    assert VersionWordAt(s, i + a) && SemverEnd(s, j + a).Some?;
  }

  lemma SemverOutside(s: string, j: nat, a: nat, b: nat)
    requires a <= b <= |s| && j <= b - a && SemverEnd(s[a..b], j).Some?
    requires forall k :: b <= k < |s| ==> IsBlank(s[k])
    ensures SemverEnd(s, j + a).Some?
  {
    SemverEndLocal(s[a..b], s, j, SemverEnd(s[a..b], j).value, a);
  }

  lemma UnshiftText(s: string, i: nat, text: string, a: nat, b: nat)
    requires a <= b <= |s| && TextAt(s[a..b], i, text)
    ensures TextAt(s, i + a, text)
  {
    forall k | 0 <= k < |text| ensures s[i + a + k] == text[k] {
      assert s[a..b][i + k] == text[k];
    }
  }

  lemma {:induction false} RewrittenMarkersStay(s: string, v: Version)
    requires v.Valid()
    ensures RewriteMarkers(s, v) == s || (HasMarker(s) && HasMarker(RewriteMarkers(s, v)))
    decreases |s|
  {
    if s != "" {
      match MarkerEnd(s, 0)
      case Some(n) => MarkerEndOfMarker(RewriteMarkers(s, v), 0, v);
      case None =>
        RewrittenMarkersStay(s[1..], v);
        var u := RewriteMarkers(s[1..], v);
        assert RewriteMarkers(s, v) == [s[0]] + u;
        MarkersLater(s[0], s[1..], u);
        assert s == [s[0]] + s[1..];
    }
  }

  lemma MarkersLater(c: char, s: string, t: string)
    requires t == s || (HasMarker(s) && HasMarker(t))
    ensures [c] + t == [c] + s || (HasMarker([c] + s) && HasMarker([c] + t))
  {
    if t != s {
      MarkerLater(c, s);
      MarkerLater(c, t);
    }
  }

  lemma MarkerLater(c: char, s: string)
    requires HasMarker(s)
    ensures HasMarker([c] + s)
  {
    var i: nat :| i <= |s| && MarkerEnd(s, i).Some?;
    MarkerEndLocal(s, [c] + s, i, MarkerEnd(s, i).value, 1);
  }

  /* ---- Reading a diff ---- */

  /** A line that substantive_changes would report if it changed. */
  predicate Substantive(line: string) { Strip(line) != "" && !StampLike(Strip(line)) }

  datatype Edit = Keep(line: string) | Delete(line: string) | Insert(line: string)

  /** git diff for one path: lines, or the remark that binary files differ. */
  datatype Diff = Binary | Lines(script: seq<Edit>)

  function OldSide(script: seq<Edit>): seq<string> {
    if script == [] then []
    else (if script[0].Insert? then [] else [script[0].line]) + OldSide(script[1..])
  }

  function NewSide(script: seq<Edit>): seq<string> {
    if script == [] then []
    else (if script[0].Delete? then [] else [script[0].line]) + NewSide(script[1..])
  }

  /** The line as the diff prints it. */
  function Printed(e: Edit): string {
    match e
    case Keep(line) => " " + line
    case Delete(line) => "-" + line
    case Insert(line) => "+" + line
  }

  /** A line of the diff output that line 112 does not skip. */
  predicate IsChangeLine(printed: string) {
    && (TextAt(printed, 0, "+") || TextAt(printed, 0, "-"))
    && !TextAt(printed, 0, "+++") && !TextAt(printed, 0, "---")
  }

  predicate Reported(e: Edit) { IsChangeLine(Printed(e)) && Substantive(Printed(e)[1..]) }

  function ReportOf(e: Edit): seq<string> { if Reported(e) then [Printed(e)] else [] }

  function Report(script: seq<Edit>): seq<string> { Collect(ReportOf, script) }

  function Collect<T, U>(f: T -> seq<U>, s: seq<T>): seq<U> {
    if s == [] then [] else f(s[0]) + Collect(f, s[1..])
  }

  lemma CollectOne<T, U>(f: T -> seq<U>, x: T)
    ensures Collect(f, [x]) == f(x)
  {
    assert [x][1..] == [];
  }

  lemma CollectStep<T, U>(f: T -> seq<U>, s: seq<T>, n: nat, acc: seq<U>)
    requires n < |s|
    ensures acc + Collect(f, s[n..]) == acc + f(s[n]) + Collect(f, s[n + 1..])
  {
    assert s[n..][1..] == s[n + 1..];
  }

  /** substantive_changes: a binary difference prints no line that starts with a sign. */
  function SubstantiveLines(diff: Diff): seq<string> {
    match diff
    case Binary => []
    case Lines(script) => Report(script)
  }

  method SubstantiveChanges(diff: Diff) returns (changed: seq<string>)
    ensures changed == SubstantiveLines(diff)
  {
    changed := [];
    if diff.Binary? {
      return;
    }
    var script := diff.script;
    assert script[0..] == script;
    for n := 0 to |script|
      invariant changed + Collect(ReportOf, script[n..]) == Report(script)
    {
      CollectStep(ReportOf, script, n, changed);
      AppendReport(script[n], changed);
      var line := Printed(script[n]);
      if IsChangeLine(line) && Substantive(line[1..]) {
        changed := changed + [line];
      }
    }
    assert script[|script|..] == [];
  }

  lemma AppendReport(e: Edit, changed: seq<string>)
    ensures changed + ReportOf(e)
            == if IsChangeLine(Printed(e)) && Substantive(Printed(e)[1..]) then changed + [Printed(e)] else changed
  {
  }

  /* ---- What an empty report guarantees ---- */

  /** Substantive, but mistaken for a file header: "+" before "++...", or "-" before "--...". */
  predicate Hidden(e: Edit) {
    && Substantive(e.line)
    && ((e.Insert? && TextAt(e.line, 0, "++")) || (e.Delete? && TextAt(e.line, 0, "--")))
  }

  predicate Overlooks(script: seq<Edit>) { exists n :: 0 <= n < |script| && Hidden(script[n]) }

  lemma ReportedIff(e: Edit)
    ensures Reported(e) <==> !e.Keep? && Substantive(e.line) && !Hidden(e)
  {
    assert Printed(e)[1..] == e.line;
    match e
    case Keep(line) => FileHeader(' ', line);
    case Delete(line) => FileHeader('-', line);
    case Insert(line) => FileHeader('+', line);
  }

  lemma FileHeader(sign: char, line: string)
    ensures TextAt([sign] + line, 0, "+") <==> sign == '+'
    ensures TextAt([sign] + line, 0, "-") <==> sign == '-'
    ensures TextAt([sign] + line, 0, "+++") <==> sign == '+' && TextAt(line, 0, "++")
    ensures TextAt([sign] + line, 0, "---") <==> sign == '-' && TextAt(line, 0, "--")
  {
    ThreeAlike(sign, line, '+');
    ThreeAlike(sign, line, '-');
    assert "+++" == ['+', '+', '+'] && "---" == ['-', '-', '-'] && "++" == ['+', '+'] && "--" == ['-', '-'];
    assert "+" == ['+'] && "-" == ['-'];
  }

  lemma ThreeAlike(sign: char, line: string, c: char)
    ensures TextAt([sign] + line, 0, [c]) <==> sign == c
    ensures TextAt([sign] + line, 0, [c, c, c]) <==> sign == c && TextAt(line, 0, [c, c])
  {
    var printed := [sign] + line;
    if TextAt(printed, 0, [c]) {
      CharAt(printed, 0, [c], 0);
    }
    if TextAt(printed, 0, [c, c, c]) {
      CharAt(printed, 0, [c, c, c], 0);
      CharAt(printed, 0, [c, c, c], 1);
      CharAt(printed, 0, [c, c, c], 2);
    }
    if TextAt(line, 0, [c, c]) {
      CharAt(line, 0, [c, c], 0);
      CharAt(line, 0, [c, c], 1);
    }
  }

  function Significant(lines: seq<string>): seq<string> {
    if lines == [] then []
    else (if Substantive(lines[0]) then [lines[0]] else []) + Significant(lines[1..])
  }

  lemma SignificantFront(line: string, rest: seq<string>)
    ensures Significant([line] + rest) == Significant([line]) + Significant(rest)
  {
    var lines := [line] + rest;
    assert lines[0] == line && lines[1..] == rest;
    assert [line][1..] == [];
  }

  // How many lines carry a given two-character opening.
  function Opening(lines: seq<string>, text: string): nat {
    if lines == [] then 0 else (if TextAt(lines[0], 0, text) then 1 else 0) + Opening(lines[1..], text)
  }

  lemma {:induction false} OpeningConcat(a: seq<string>, b: seq<string>, text: string)
    ensures Opening(a + b, text) == Opening(a, text) + Opening(b, text)
  {
    if a == [] {
      assert a + b == b;
    } else {
      assert (a + b)[1..] == a[1..] + b;
      OpeningConcat(a[1..], b, text);
    }
  }

  function SideOf(e: Edit, before: bool): seq<string> {
    if e.Keep? || (before && e.Delete?) || (!before && e.Insert?) then Significant([e.line]) else []
  }

  lemma SidesStep(script: seq<Edit>)
    requires script != []
    ensures Significant(OldSide(script)) == SideOf(script[0], true) + Significant(OldSide(script[1..]))
    ensures Significant(NewSide(script)) == SideOf(script[0], false) + Significant(NewSide(script[1..]))
  {
    FirstLine(!script[0].Insert?, script[0].line, OldSide(script[1..]));
    FirstLine(!script[0].Delete?, script[0].line, NewSide(script[1..]));
  }

  lemma FirstLine(present: bool, line: string, rest: seq<string>)
    ensures Significant((if present then [line] else []) + rest)
            == (if present then Significant([line]) else []) + Significant(rest)
  {
    if present {
      SignificantFront(line, rest);
    } else {
      assert [] + rest == rest;
    }
  }

  lemma {:induction false} NothingOverlooked(script: seq<Edit>)
    requires Report(script) == [] && !Overlooks(script)
    ensures Significant(OldSide(script)) == Significant(NewSide(script))
  {
    if script != [] {
      ReportedIff(script[0]);
      SidesStep(script);
      assert !Hidden(script[0]);
      assert forall n :: 0 <= n < |script[1..]| ==> script[1..][n] == script[n + 1];
      NothingOverlooked(script[1..]);
      assert [script[0].line][1..] == [];
    }
  }

  // Unreported deletions only ever take away "--" lines, unreported insertions only add "++" lines.
  lemma {:induction false} OpeningsCounted(script: seq<Edit>)
    requires Report(script) == []
    ensures Opening(Significant(OldSide(script)), "--") >= Opening(Significant(NewSide(script)), "--")
    ensures Opening(Significant(OldSide(script)), "++") <= Opening(Significant(NewSide(script)), "++")
    ensures Overlooks(script) ==>
              || Opening(Significant(OldSide(script)), "--") > Opening(Significant(NewSide(script)), "--")
              || Opening(Significant(OldSide(script)), "++") < Opening(Significant(NewSide(script)), "++")
  {
    if script != [] {
      var e := script[0];
      ReportedIff(e);
      SidesStep(script);
      OpeningsCounted(script[1..]);
      var oldRest, newRest := Significant(OldSide(script[1..])), Significant(NewSide(script[1..]));
      OpeningConcat(SideOf(e, true), oldRest, "--");
      OpeningConcat(SideOf(e, true), oldRest, "++");
      OpeningConcat(SideOf(e, false), newRest, "--");
      OpeningConcat(SideOf(e, false), newRest, "++");
      OneLine(e);
      if Overlooks(script) && !Hidden(e) {
        var n :| 0 <= n < |script| && Hidden(script[n]);
        assert script[1..][n - 1] == script[n];
      }
    }
  }

  lemma OneLine(e: Edit)
    requires !Reported(e)
    ensures Opening(SideOf(e, true), "--") == Opening(SideOf(e, false), "--") + (if e.Delete? && Hidden(e) then 1 else 0)
    ensures Opening(SideOf(e, false), "++") == Opening(SideOf(e, true), "++") + (if e.Insert? && Hidden(e) then 1 else 0)
  {
    ReportedIff(e);
    assert Significant([e.line]) == if Substantive(e.line) then [e.line] else [];
    if TextAt(e.line, 0, "++") {
      CharAt(e.line, 0, "++", 0);
    }
    if TextAt(e.line, 0, "--") {
      CharAt(e.line, 0, "--", 0);
    }
  }

  /** With an empty report, the two sides of a text diff agree on every line that is
      neither blank nor stamp-like, exactly when no hidden line changed. */
  lemma EmptyReportLosesNothingIff(script: seq<Edit>)
    requires Report(script) == []
    ensures Significant(OldSide(script)) == Significant(NewSide(script)) <==> !Overlooks(script)
  {
    if Overlooks(script) {
      OpeningsCounted(script);
    } else {
      NothingOverlooked(script);
    }
  }

  /** Both gaps are real: a changed "--" / "++" line, and any binary difference. */
  lemma OverlookedChange()
    ensures Report([Delete("--fast")]) == [] && Overlooks([Delete("--fast")])
    ensures Report([Insert("++count;")]) == [] && Overlooks([Insert("++count;")])
    ensures SubstantiveLines(Binary) == []
  {
    NotStampLike("--fast");
    NotStampLike("++count;");
    assert TextAt("--fast", 0, "--") && TextAt("++count;", 0, "++");
    HiddenEdit(Delete("--fast"));
    HiddenEdit(Insert("++count;"));
  }

  lemma HiddenEdit(e: Edit)
    requires Hidden(e)
    ensures Report([e]) == [] && Overlooks([e])
  {
    ReportedIff(e);
    CollectOne(ReportOf, e);
    assert Hidden([e][0]);
  }

  lemma NotStampLike(s: string)
    requires s != "" && !IsBlank(s[0])
    requires forall k :: 0 <= k < |s| ==> s[k] != 'v' && s[k] != 'V' && s[k] != '(' && s[k] != 'L'
    ensures Substantive(s)
  {
    StripKeepsStampLike(s);
    forall i: nat | i <= |s| ensures !TextAt(s, i, "LIBEMBEDDING_VERSION") && !VersionWordAt(s, i) {
      if TextAt(s, i, "LIBEMBEDDING_VERSION") {
        CharAt(s, i, "LIBEMBEDDING_VERSION", 0);
      }
      if TextAt(s, i, "Version") {
        CharAt(s, i, "Version", 0);
      }
      if TextAt(s, i, "version") {
        CharAt(s, i, "version", 0);
      }
    }
  }
}

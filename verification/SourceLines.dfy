/** The version lines that scripts/sync_branch.py reads and writes, in characters: which line
    announces the version of a ref, which lines of the three machine sources are stamped and
    what they become, and which line sync_version.py reads back.
 */
module SourceLines {
  import opened Options
  import opened Sequences
  import opened Stamps
  import opened VersionSync
  import opened SyncBranch
  import opened ReportedLines
  import opened SyncedLines

  predicate Quotable(s: string) { s != "" && '"' !in s }

  /** A line that opens like this, quotes something, and closes like that. */
  ghost predicate Quotes(line: string, opening: string, closing: string) {
    exists q :: Quotable(q) && line == opening + q + closing
  }

  /** A line that announces a version to canonical_version. */
  predicate Announces(line: string, q: string, rest: string) {
    Quotable(q) && line == "version = " + "\"" + q + "\"" + rest
  }

  lemma EndOfQuote(line: string, opening: string, q: string, rest: string)
    requires '"' !in q && line == opening + q + "\"" + rest
    ensures QuoteEnd(line, |opening|) == |opening| + |q| && TextAt(line, 0, opening)
    ensures line[|opening|..|opening| + |q|] == q && |opening| + |q| < |line|
  {
    FourPieces(opening, q, "\"", rest);
    var n := |opening|;
    CharAt(line, n + |q|, "\"", 0);
    forall k | n <= k < n + |q| ensures line[k] != '"' {
      CharAt(line, n, q, k - n);
    }
    QuoteEndIs(line, n, n + |q|);
    TextSlice(line, n, q);
  }

  lemma {:induction false} QuoteEndIs(s: string, i: nat, e: nat)
    requires i <= e < |s| && s[e] == '"' && forall k :: i <= k < e ==> s[k] != '"'
    ensures QuoteEnd(s, i) == e
    decreases e - i
  {
    if i < e {
      QuoteEndIs(s, i + 1, e);
    }
  }

  lemma QuotedIff(line: string, q: string)
    ensures QuotedVersion(line) == Some(q) <==> exists rest :: Announces(line, q, rest)
  {
    var opening := TARGETS[0].opening;
    assert opening == "version = " + "\"";
    if QuotedVersion(line) == Some(q) {
      var n, e := |opening|, QuoteEnd(line, |opening|);
      TextSlice(line, 0, opening);
      assert line == line[0..n] + line[n..e] + [line[e]] + line[e + 1..];
      assert "\"" == ['"'];
      assert Announces(line, q, line[e + 1..]);
    }
    if rest :| Announces(line, q, rest) {
      EndOfQuote(line, opening, q, rest);
    }
  }

  /** canonical_version reads the first line that announces a version. */
  lemma {:induction false} CanonicalIs(before: seq<string>, q: string, rest: string, after: seq<string>)
    requires forall k, p, r :: 0 <= k < |before| ==> !Announces(before[k], p, r)
    requires Quotable(q)
    ensures CanonicalVersion(before) == None
    ensures CanonicalVersion(before + ["version = " + "\"" + q + "\"" + rest] + after) == Some(q)
  {
    var line := "version = " + "\"" + q + "\"" + rest;
    if before == [] {
      assert Announces(line, q, rest);
      QuotedIff(line, q);
      assert ([] + [line] + after)[0] == line;
    } else {
      CanonicalIs(before[1..], q, rest, after);
      Unannounced(before[0]);
      assert (before + [line] + after)[1..] == before[1..] + [line] + after;
    }
  }

  lemma Unannounced(line: string)
    requires forall p, r :: !Announces(line, p, r)
    ensures QuotedVersion(line).None?
  {
    if QuotedVersion(line).Some? {
      QuotedIff(line, QuotedVersion(line).value);
    }
  }

  /* ---- The machine sources ---- */

  lemma MachineLineQuotes(t: Target, line: string)
    requires MachineLine(t, line)
    ensures Quotes(line, t.opening, t.closing)
  {
    var n, m := |t.opening|, |line| - |t.closing|;
    TextSlice(line, 0, t.opening);
    TextSlice(line, m, t.closing);
    ThreeSlices(line, n, m);
    assert line == t.opening + line[n..m] + t.closing;
    assert Quotable(line[n..m]);
  }

  lemma QuoteIsMachineLine(t: Target, q: string)
    requires Quotable(q)
    ensures MachineLine(t, t.opening + q + t.closing)
  {
    var line := t.opening + q + t.closing;
    ThreeParts(t.opening, q, t.closing);
    FourPieces(t.opening, q, t.closing, "");
    assert line == t.opening + q + t.closing + "";
    assert line[|t.opening|..|line| - |t.closing|] == q;
  }

  lemma MachineLineIff(t: Target, line: string)
    ensures MachineLine(t, line) <==> Quotes(line, t.opening, t.closing)
  {
    if MachineLine(t, line) {
      MachineLineQuotes(t, line);
    }
    if q :| Quotable(q) && line == t.opening + q + t.closing {
      QuoteIsMachineLine(t, q);
    }
  }

  lemma {:induction false} FirstMachineLineIs(t: Target, before: seq<string>, line: string, after: seq<string>)
    requires (forall k :: 0 <= k < |before| ==> !MachineLine(t, before[k])) && MachineLine(t, line)
    ensures FirstMachineLine(t, before + [line] + after) == |before| && FirstMachineLine(t, before) == |before|
  {
    if before == [] {
      assert ([] + [line] + after)[0] == line;
    } else {
      FirstMachineLineIs(t, before[1..], line, after);
      assert (before + [line] + after)[1..] == before[1..] + [line] + after;
    }
  }

  /** Of a machine source the first line of the expected form gets the version, and no other. */
  lemma FirstQuoteReplaced(t: Target, before: seq<string>, q: string, after: seq<string>, version: string)
    requires Quotable(q) && forall k :: 0 <= k < |before| ==> !Quotes(before[k], t.opening, t.closing)
    ensures StampMachineText(t, before + [t.opening + q + t.closing] + after, version)
            == before + [t.opening + version + t.closing] + after
    ensures FirstMachineLine(t, before) == |before|
  {
    var line := t.opening + q + t.closing;
    assert Quotes(line, t.opening, t.closing);
    MachineLineIff(t, line);
    forall k | 0 <= k < |before| ensures !MachineLine(t, before[k]) {
      MachineLineIff(t, before[k]);
    }
    FirstMachineLineIs(t, before, line, after);
  }

  /** The three sources and their lines. */
  lemma SourceLineStamped(before: seq<string>, q: string, after: seq<string>, version: string)
    requires Quotable(q)
    ensures |TARGETS| == 3
    ensures TARGETS[0].path == Path("python", "pyproject.toml") && TARGETS[1].path == Path("", "CMakeLists.txt")
            && TARGETS[2].path == Path("include/libembedding", "config.h")
    ensures (forall k :: 0 <= k < |before| ==> !Quotes(before[k], "version = " + "\"", "\"")) ==>
              StampMachineText(TARGETS[0], before + ["version = " + "\"" + q + "\""] + after, version)
              == before + ["version = " + "\"" + version + "\""] + after
    ensures (forall k :: 0 <= k < |before| ==> !Quotes(before[k], "set(LIBEMBEDDING_VERSION \"", "\")")) ==>
              StampMachineText(TARGETS[1], before + ["set(LIBEMBEDDING_VERSION \"" + q + "\")"] + after, version)
              == before + ["set(LIBEMBEDDING_VERSION \"" + version + "\")"] + after
    ensures (forall k :: 0 <= k < |before| ==> !Quotes(before[k], "#define LIBEMBEDDING_VERSION_STRING \"", "\"")) ==>
              StampMachineText(TARGETS[2], before + ["#define LIBEMBEDDING_VERSION_STRING \"" + q + "\""] + after, version)
              == before + ["#define LIBEMBEDDING_VERSION_STRING \"" + version + "\""] + after
  {
    SourceForms();
    forall n | 0 <= n < 3 && forall k :: 0 <= k < |before| ==> !Quotes(before[k], TARGETS[n].opening, TARGETS[n].closing)
      ensures StampMachineText(TARGETS[n], before + [TARGETS[n].opening + q + TARGETS[n].closing] + after, version)
              == before + [TARGETS[n].opening + version + TARGETS[n].closing] + after
    {
      FirstQuoteReplaced(TARGETS[n], before, q, after, version);
    }
  }

  lemma SourceForms()
    ensures |TARGETS| == 3
    ensures TARGETS[0] == Target(Path("python", "pyproject.toml"), "version = " + "\"", "\"")
    ensures TARGETS[1] == Target(Path("", "CMakeLists.txt"), "set(LIBEMBEDDING_VERSION \"", "\")")
    ensures TARGETS[2] == Target(Path("include/libembedding", "config.h"), "#define LIBEMBEDDING_VERSION_STRING \"", "\"")
  {
    SetOpening();
    DefineOpening();
  }

  lemma SetOpening()
    ensures "set(" + MACRO_NAME + " \"" == "set(LIBEMBEDDING_VERSION \""
  {
  }

  lemma DefineOpening()
    ensures "#define " + MACRO_NAME + "_STRING \"" == "#define LIBEMBEDDING_VERSION_STRING \""
  {
  }

  /* ---- The version that sync_version.py reads back ---- */

  /** version, =, and X.Y.Z in single or double quotes, loosely spaced. */
  predicate IsLoose(line: string, a: string, b: string, o: char, u: Version, c: char, rest: string) {
    && Blanks(a) && Blanks(b) && (o == '"' || o == '\'') && (c == '"' || c == '\'')
    && Number(u.major) && Number(u.minor) && Number(u.patch)
    && line == "version" + a + "=" + b + [o] + u.Text() + [c] + rest
  }

  lemma LitBlankLitBlank(word: string, eq: string, a: string, b: string, line: string)
    requires AllBlank(a) && AllBlank(b) && eq != "" && !IsBlank(eq[0])
    requires var n := |word| + |a| + |eq| + |b|;
             && TextAt(line, 0, word) && TextAt(line, |word|, a) && TextAt(line, |word| + |a|, eq)
             && TextAt(line, |word| + |a| + |eq|, b) && n < |line| && !IsBlank(line[n])
    ensures PrefixEnd(Lit(word, Blank0(Lit(eq, Blank0(Core)))), line, 0) == Some(|word| + |a| + |eq| + |b|)
  {
    CharAt(line, |word| + |a|, eq, 0);
    BlankRun(line, |word|, a);
    LitBlank(eq, b, line, |word| + |a|);
    assert PrefixEnd(Blank0(Lit(eq, Blank0(Core))), line, |word|) == Some(|word| + |a| + |eq| + |b|);
  }

  lemma LitBlankLitPieces(word: string, eq: string, line: string) returns (a: string, b: string)
    requires PrefixEnd(Lit(word, Blank0(Lit(eq, Blank0(Core)))), line, 0).Some?
    ensures Blanks(a) && Blanks(b) && TextAt(line, 0, word + a + eq + b)
    ensures PrefixEnd(Lit(word, Blank0(Lit(eq, Blank0(Core)))), line, 0) == Some(|word + a + eq + b|)
  {
    var e := |word|;
    var f := BlankEnd(line, e);
    assert PrefixEnd(Lit(word, Blank0(Lit(eq, Blank0(Core)))), line, 0) == PrefixEnd(Blank0(Lit(eq, Blank0(Core))), line, e);
    assert PrefixEnd(Blank0(Lit(eq, Blank0(Core))), line, e) == PrefixEnd(Lit(eq, Blank0(Core)), line, f);
    b := WordPieces(eq, line, f);
    a := line[e..f];
    BlankSlice(line, e);
    TextAtConcat(line, f, eq, b);
    JoinFour(line, word, a, eq, b);
  }

  lemma QuotedAtPieces(line: string, prefix: string) returns (o: char, c: char, rest: string)
    requires TextAt(line, 0, prefix) && QuotedAt(line, Some(|prefix|)).Some?
    ensures IsQuote(o) && IsQuote(c)
    ensures line == prefix + [o] + QuotedAt(line, Some(|prefix|)).value.Text() + [c] + rest
  {
    var n := |prefix|;
    var e := QuotedAtParts(line, n);
    o, c, rest := line[n], line[e], line[e + 1..];
    TextSlice(line, 0, prefix);
    FivePieces(line, prefix, e, QuotedAt(line, Some(n)).value.Text());
  }

  lemma FivePieces(line: string, prefix: string, e: nat, text: string)
    requires |prefix| < e < |line| && line[0..|prefix|] == prefix && line[|prefix| + 1..e] == text
    ensures line == prefix + [line[|prefix|]] + text + [line[e]] + line[e + 1..]
  {
    FiveSlices(line, |prefix|, e);
  }

  lemma QuotedAtParts(line: string, n: nat) returns (e: nat)
    requires n <= |line| && QuotedAt(line, Some(n)).Some?
    ensures n < e < |line| && IsQuote(line[n]) && IsQuote(line[e]) && line[n + 1..e] == QuotedAt(line, Some(n)).value.Text()
  {
    e := SemverEnd(line, n + 1).value;
  }

  lemma FiveSlices(s: string, n: nat, e: nat)
    requires n < e < |s|
    ensures s == s[0..n] + [s[n]] + s[n + 1..e] + [s[e]] + s[e + 1..]
  {
  }

  lemma QuotedIsValid(line: string, n: nat)
    requires n <= |line| && QuotedAt(line, Some(n)).Some?
    ensures QuotedAt(line, Some(n)).value.Valid()
  {
  }

  lemma LooseParts(line: string) returns (a: string, b: string, o: char, c: char, rest: string)
    requires LooseVersion(line).Some?
    ensures IsLoose(line, a, b, o, LooseVersion(line).value, c, rest)
  {
    a, b := LitBlankLitPieces("version", "=", line);
    o, c, rest := QuotedAtPieces(line, "version" + a + "=" + b);
    QuotedIsValid(line, |"version" + a + "=" + b|);
  }

  /** A line is read exactly when it has this form, and then as the version it spells. */
  lemma LooseIff(line: string, u: Version)
    ensures LooseVersion(line) == Some(u) <==> exists a, b, o, c, rest :: IsLoose(line, a, b, o, u, c, rest)
  {
    if LooseVersion(line) == Some(u) {
      var a, b, o, c, rest := LooseParts(line);
    }
    if a, b, o, c, rest :| IsLoose(line, a, b, o, u, c, rest) {
      LooseIsRead(line, a, b, o, u, c, rest);
    }
  }

  lemma LooseIsRead(line: string, a: string, b: string, o: char, u: Version, c: char, rest: string)
    requires IsLoose(line, a, b, o, u, c, rest)
    ensures LooseVersion(line) == Some(u)
  {
    QuoteInPlace(line, "version" + a + "=" + b, o, u.Text(), c, rest);
    QuotedIsRead("version", "=", line, a, b, u, "version" + a + "=" + b);
  }

  lemma QuotedIsRead(word: string, eq: string, line: string, a: string, b: string, u: Version, prefix: string)
    requires AllBlank(a) && AllBlank(b) && eq != "" && !IsBlank(eq[0]) && u.Valid() && prefix == word + a + eq + b
    requires var n := |prefix|;
             && n + 1 + |u.Text()| < |line| && line[..n] == prefix && IsQuote(line[n]) && TextAt(line, n + 1, u.Text())
             && IsQuote(line[n + 1 + |u.Text()|])
    ensures QuotedAt(line, PrefixEnd(Lit(word, Blank0(Lit(eq, Blank0(Core)))), line, 0)) == Some(u)
  {
    LoosePrefix(word, eq, line, a, b, prefix);
    QuotedFrom(line, PrefixEnd(Lit(word, Blank0(Lit(eq, Blank0(Core)))), line, 0), |prefix|, u);
  }

  lemma QuotedFrom(line: string, start: Option<nat>, n: nat, u: Version)
    requires start == Some(n) && u.Valid() && n + 1 + |u.Text()| < |line|
    requires IsQuote(line[n]) && TextAt(line, n + 1, u.Text()) && IsQuote(line[n + 1 + |u.Text()|])
    ensures QuotedAt(line, start) == Some(u)
  {
    QuotedAtIs(line, n, u);
  }

  lemma LoosePrefix(word: string, eq: string, line: string, a: string, b: string, prefix: string)
    requires AllBlank(a) && AllBlank(b) && eq != "" && !IsBlank(eq[0]) && prefix == word + a + eq + b
    requires |prefix| < |line| && line[..|prefix|] == prefix && !IsBlank(line[|prefix|])
    ensures PrefixEnd(Lit(word, Blank0(Lit(eq, Blank0(Core)))), line, 0) == Some(|prefix|)
  {
    FourInFront(word, a, eq, b, prefix, line);
    LitBlankLitBlank(word, eq, a, b, line);
  }

  lemma QuoteInPlace(line: string, prefix: string, o: char, text: string, c: char, rest: string)
    requires line == prefix + [o] + text + [c] + rest
    ensures var n := |prefix|;
            && n + 1 + |text| < |line| && line[..n] == prefix && line[n] == o && TextAt(line, n + 1, text)
            && line[n + 1 + |text|] == c
  {
    FourPieces(prefix, [o], text, [c] + rest);
    assert line == prefix + [o] + text + ([c] + rest);
    CharAt(line, |prefix| + 1 + |text|, [c] + rest, 0);
  }

  /** sync_version.py reads the first such line. */
  lemma {:induction false} ReadBackIs(before: seq<string>, line: string, u: Version, after: seq<string>)
    requires forall k, a, b, o, w, c, r :: 0 <= k < |before| ==> !IsLoose(before[k], a, b, o, w, c, r)
    requires exists a, b, o, c, rest :: IsLoose(line, a, b, o, u, c, rest)
    ensures ReadCanonical(before) == None && ReadCanonical(before + [line] + after) == Some(u)
  {
    LooseIff(line, u);
    var text := before + [line] + after;
    forall k | 0 <= k < |before| ensures LooseVersion(before[k]).None? {
      if LooseVersion(before[k]).Some? {
        LooseIff(before[k], LooseVersion(before[k]).value);
      }
    }
    assert forall k :: 0 <= k < |before| ==> text[k] == before[k];
    assert text[|before|] == line;
    FirstLooseIs(text, |before|);
  }

  /* ---- The conflict markers that git grep looks for ---- */

  /** <<<<<<< or >>>>>>> at the beginning of a line, alone or before a space. */
  predicate MarksConflict(line: string) {
    || line == "<<<<<<<" || line == ">>>>>>>"
    || Reads(line, 0, "<<<<<<< ") || Reads(line, 0, ">>>>>>> ")
  }

  lemma MarksConflictIff(line: string)
    ensures IsMarkerLine(line) <==> MarksConflict(line)
  {
    SevenAlike(line, '<');
    SevenAlike(line, '>');
    assert "<<<<<<<" == ['<', '<', '<', '<', '<', '<', '<'] && "<<<<<<< " == ['<', '<', '<', '<', '<', '<', '<', ' '];
    assert ">>>>>>>" == ['>', '>', '>', '>', '>', '>', '>'] && ">>>>>>> " == ['>', '>', '>', '>', '>', '>', '>', ' '];
  }

  lemma SevenAlike(line: string, c: char)
    ensures |line| >= 7 && line[0] == c && (forall k :: 0 <= k < 7 ==> line[k] == line[0]) && (|line| == 7 || line[7] == ' ')
            <==> line == [c, c, c, c, c, c, c] || Reads(line, 0, [c, c, c, c, c, c, c, ' '])
  {
    if |line| >= 8 {
      assert line[0..8] == [line[0], line[1], line[2], line[3], line[4], line[5], line[6], line[7]];
    } else if |line| == 7 {
      assert line == [line[0], line[1], line[2], line[3], line[4], line[5], line[6]];
    }
  }

  /** Everything outside third_party is searched. */
  lemma ConflictMarkersIff(files: Tree)
    ensures HasConflictMarkers(files) <==>
              exists p, k :: p in files && p.dir != "third_party" && !Reads(p.dir, 0, "third_party/")
                             && 0 <= k < |files[p]| && MarksConflict(files[p][k])
  {
    forall p: Path ensures ThirdParty(p) <==> p.dir == "third_party" || Reads(p.dir, 0, "third_party/") {
      ReadsIsText(p.dir, 0, "third_party/");
    }
    forall line: string ensures IsMarkerLine(line) <==> MarksConflict(line) {
      MarksConflictIff(line);
    }
  }
}

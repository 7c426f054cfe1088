/** What a line carries after a sync, in characters: the stamps that scripts/sync_version.py
    rewrites in each kind of file, what they become, and that nothing else changes.
 */
module SyncedLines {
  import opened Options
  import opened Sequences
  import opened Stamps
  import opened VersionSync
  import opened Diffs
  import opened ReportedLines

  /* ---- The notions of the statements, independent of the patterns ---- */

  predicate Blanks(s: string) {
    forall k :: 0 <= k < |s| ==> s[k] in " \t\r" || s[k] == 11 as char || s[k] == 12 as char
  }

  predicate Number(s: string) { s != "" && forall k :: 0 <= k < |s| ==> '0' <= s[k] <= '9' }

  predicate EndsIn(s: string, suffix: string) { |suffix| <= |s| && s[|s| - |suffix|..] == suffix }

  predicate HeaderFile(p: Path) {
    || (p.dir == "include/libembedding" && (EndsIn(p.name, ".h") || EndsIn(p.name, ".hpp")))
    || (p.dir in ["include/libembedding/detail", "include/libembedding/cpp"] && EndsIn(p.name, ".hpp"))
  }

  predicate PythonFile(p: Path) { p.dir == "python/src/libembedding" && EndsIn(p.name, ".py") }

  /* ---- Which files a rule manages ---- */

  lemma HeaderFiles(p: Path)
    ensures Manages(HEADER_RULE, p) <==> HeaderFile(p)
  {
    var g := HEADER_RULE.globs;
    assert g == [
      Suffix("include/libembedding", ".h"), Suffix("include/libembedding", ".hpp"),
      Suffix("include/libembedding/detail", ".hpp"), Suffix("include/libembedding/cpp", ".hpp")];
    assert forall x :: x in g <==> x == g[0] || x == g[1] || x == g[2] || x == g[3];
    assert Manages(HEADER_RULE, p) <==> Matches(g[0], p) || Matches(g[1], p) || Matches(g[2], p) || Matches(g[3], p);
  }

  lemma OneGlob(rule: Rule, glob: Glob, p: Path)
    requires rule.globs == [glob]
    ensures Manages(rule, p) <==> Matches(glob, p)
  {
    assert glob in rule.globs;
  }

  lemma ManagedFiles(p: Path)
    ensures |RULES| == 7
    ensures Manages(RULES[0], p) <==> HeaderFile(p)
    ensures Manages(RULES[1], p) <==> PythonFile(p)
    ensures Manages(RULES[2], p) <==> p == Path("python/src/libembedding", "_cdefs.h")
    ensures Manages(RULES[6], p) <==> p == Path("", "AGENTS.md")
  {
    HeaderFiles(p);
    OneGlob(PYTHON_RULE, Suffix("python/src/libembedding", ".py"), p);
    OneGlob(CDEFS_RULE, Exact(Path("python/src/libembedding", "_cdefs.h")), p);
    OneGlob(AGENTS_RULE, Exact(Path("", "AGENTS.md")), p);
  }

  lemma ManagedMacros(k: nat, p: Path)
    requires 3 <= k <= 5
    ensures k < |RULES| && (Manages(RULES[k], p) <==> p == Path("include/libembedding", "config.h"))
  {
    OneGlob(RULES[k], Exact(CONFIG), p);
  }

  /* ---- At most one rule meets a line ---- */

  lemma LineRulesExclude(j: nat, k: nat)
    requires j < |RULES| && k < |RULES| && j != k && j != 2 && k != 2
    ensures RULES[j].LineRule? && RULES[k].LineRule? && Exclusive(RULES[j], RULES[k])
  {
    TableShape(j);
    TableShape(k);
    if VersionSync.Opening(j) != VersionSync.Opening(k) {
      DifferentOpenings(RULES[j], RULES[k], VersionSync.Opening(j), VersionSync.Opening(k));
    } else {
      MacrosExclusive(if j < k then j else k, if j < k then k else j);
    }
  }

  predicate MatchedBy(j: nat, line: string)
    requires j < |RULES|
  {
    RULES[j].LineRule? && MatchLine(RULES[j].pattern, RULES[j].part, line).Some?
  }

  lemma UnmatchedByOthers(j: nat, k: nat, line: string, v: Version)
    requires j < |RULES| && k < |RULES| && j != k && j != 2 && k != 2 && MatchedBy(j, line)
    ensures ApplyLine(RULES[k], line, v) == line
  {
    LineRulesExclude(j, k);
    assert !BothMatch(RULES[j], RULES[k], line);
  }

  lemma StaysMatched(j: nat, line: string, v: Version)
    requires j < |RULES| && MatchedBy(j, line) && v.Valid()
    ensures MatchedBy(j, ApplyLine(RULES[j], line, v))
  {
    RewrittenLineMatches(RULES[j].pattern, RULES[j].part, line, v);
  }

  lemma OtherRule(path: Path, k: nat, j: nat, line: string, v: Version)
    requires k < |RULES| && j < |RULES| && j != 2 && k != j && v.Valid()
    requires !Manages(RULES[2], path) && MatchedBy(j, line)
    ensures Manages(RULES[k], path) ==> ApplyLine(RULES[k], line, v) == line
  {
    if k != 2 {
      UnmatchedByOthers(j, k, line, v);
    }
  }

  /** A line after the first k of some rules. */
  function LineBy(rules: seq<Rule>, path: Path, k: nat, line: string, v: Version): string
    requires k <= |rules|
  {
    if k == 0 then line
    else
      var before := LineBy(rules, path, k - 1, line, v);
      if Manages(rules[k - 1], path) then ApplyLine(rules[k - 1], before, v) else before
  }

  lemma {:induction false} LineByTable(path: Path, k: nat, line: string, v: Version)
    requires k <= |RULES|
    ensures SyncLine(path, k, line, v) == LineBy(RULES, path, k, line, v)
  {
    if k > 0 {
      LineByTable(path, k - 1, line, v);
      SyncLineNext(path, k - 1, line, v);
    }
  }

  /** Of these rules only one does anything to the line or to what it makes of it. */
  lemma {:induction false} OneRuleOf(rules: seq<Rule>, path: Path, k: nat, j: nat, line: string, t: string, v: Version)
    requires k <= |rules| && j < |rules| && Manages(rules[j], path) && t == ApplyLine(rules[j], line, v)
    requires OthersIdle(rules, path, j, line, v) && OthersIdle(rules, path, j, t, v)
    ensures LineBy(rules, path, k, line, v) == if k > j then t else line
  {
    if k > 0 {
      OneRuleOf(rules, path, k - 1, j, line, t, v);
      LineByNext(rules, path, k - 1, line, v);
      if k - 1 != j {
        IdleRule(rules, path, k - 1, j, if k - 1 > j then t else line, v);
      }
    }
  }

  /** No rule of this file but the j-th does anything to the line. */
  predicate OthersIdle(rules: seq<Rule>, path: Path, j: nat, line: string, v: Version) {
    forall m :: 0 <= m < |rules| && m != j && Manages(rules[m], path) ==> ApplyLine(rules[m], line, v) == line
  }

  lemma IdleRule(rules: seq<Rule>, path: Path, m: nat, j: nat, line: string, v: Version)
    requires OthersIdle(rules, path, j, line, v) && m < |rules| && m != j
    ensures Manages(rules[m], path) ==> ApplyLine(rules[m], line, v) == line
  {
  }

  lemma LineByNext(rules: seq<Rule>, path: Path, k: nat, line: string, v: Version)
    requires k < |rules|
    ensures var before := LineBy(rules, path, k, line, v);
            LineBy(rules, path, k + 1, line, v) == if Manages(rules[k], path) then ApplyLine(rules[k], before, v) else before
  {
  }

  /** Outside _cdefs.h the one rule that matches a line decides what becomes of it. */
  lemma OneRuleApplies(path: Path, j: nat, line: string, t: string, v: Version)
    requires j < |RULES| && j != 2 && v.Valid()
    requires Manages(RULES[j], path) && !Manages(RULES[2], path) && MatchedBy(j, line) && t == ApplyLine(RULES[j], line, v)
    ensures SyncLine(path, |RULES|, line, v) == t
  {
    StaysMatched(j, line, v);
    forall m | 0 <= m < |RULES| && m != j && Manages(RULES[m], path)
      ensures ApplyLine(RULES[m], line, v) == line && ApplyLine(RULES[m], t, v) == t
    {
      OtherRule(path, m, j, line, v);
      OtherRule(path, m, j, t, v);
    }
    OneRuleOf(RULES, path, |RULES|, j, line, t, v);
    LineByTable(path, |RULES|, line, v);
  }

  /* ---- The parts of a stamped line ---- */

  lemma FourPieces(a: string, b: string, c: string, d: string)
    ensures var s := a + b + c + d;
            && TextAt(s, 0, a) && TextAt(s, |a|, b) && TextAt(s, |a| + |b|, c) && TextAt(s, |a| + |b| + |c|, d)
  {
    var s := a + b + c + d;
    assert TextAt(s, 0, s);
    TextAtConcat(s, 0, a + b + c, d);
    TextAtConcat(s, 0, a + b, c);
    TextAtConcat(s, 0, a, b);
  }

  lemma BlankRun(s: string, i: nat, b: string)
    requires TextAt(s, i, b) && AllBlank(b) && (i + |b| < |s| ==> !IsBlank(s[i + |b|]))
    ensures BlankEnd(s, i) == i + |b|
  {
    forall k | i <= k < i + |b| ensures IsBlank(s[k]) {
      CharAt(s, i, b, k - i);
    }
    BlankEndIs(s, i, i + |b|);
  }

  /** A line made of what a pattern reads, a number or version, and blanks is rewritten in the
      number only. */
  lemma CoreReplaced(rule: Rule, prefix: string, u: Version, suffix: string, v: Version)
    requires rule.LineRule? && u.Valid() && AllBlank(suffix)
    requires PrefixEnd(rule.pattern, prefix + Expand(rule.part, u) + suffix, 0) == Some(|prefix|)
    ensures var line := prefix + Expand(rule.part, u) + suffix;
            MatchLine(rule.pattern, rule.part, line).Some? && ApplyLine(rule, line, v) == prefix + Expand(rule.part, v) + suffix
  {
    MatchFromParts(rule.pattern, rule.part, prefix, u, suffix);
  }

  lemma FirstOfCore(part: Part, prefix: string, u: Version, suffix: string)
    requires u.Valid()
    ensures var line := prefix + Expand(part, u) + suffix;
            |prefix| < |line| && IsDigit(line[|prefix|]) && !IsBlank(line[|prefix|])
  {
    ExpansionStartsWithDigit(part, u);
    var line := prefix + Expand(part, u) + suffix;
    assert line[|prefix|] == Expand(part, u)[0];
  }

  lemma MacroPrefix(name: string, part: Part, a: string, b: string, u: Version, suffix: string)
    requires u.Valid() && AllBlank(a) && a != "" && AllBlank(b) && b != "" && name != "" && !IsBlank(name[0])
    ensures var prefix := "#define" + a + ("LIBEMBEDDING_VERSION_" + name) + b;
            PrefixEnd(MacroRule(name, part).pattern, prefix + Expand(part, u) + suffix, 0) == Some(|prefix|)
  {
    var prefix := "#define" + a + ("LIBEMBEDDING_VERSION_" + name) + b;
    FirstOfCore(part, prefix, u, suffix);
    assert !IsBlank("LIBEMBEDDING_VERSION_"[0]);
    LitBlankLit("#define", "LIBEMBEDDING_VERSION_", name, a, b, prefix, prefix + Expand(part, u) + suffix);
  }

  lemma InFront(prefix: string, line: string, i: nat, text: string)
    requires |prefix| <= |line| && line[..|prefix|] == prefix && TextAt(prefix, i, text)
    ensures TextAt(line, i, text)
  {
    forall k | 0 <= k < |text| ensures line[i + k] == text[k] {
      assert line[..|prefix|][i + k] == prefix[i + k];
    }
  }

  lemma FourInFront(a: string, b: string, c: string, d: string, prefix: string, line: string)
    requires prefix == a + b + c + d && |prefix| <= |line| && line[..|prefix|] == prefix
    ensures TextAt(line, 0, a) && TextAt(line, |a|, b) && TextAt(line, |a| + |b|, c) && TextAt(line, |a| + |b| + |c|, d)
  {
    FourPieces(a, b, c, d);
    InFront(prefix, line, 0, a);
    InFront(prefix, line, |a|, b);
    InFront(prefix, line, |a| + |b|, c);
    InFront(prefix, line, |a| + |b| + |c|, d);
  }

  lemma LitBlankLit(define: string, word: string, name: string, a: string, b: string, prefix: string, line: string)
    requires AllBlank(a) && a != "" && AllBlank(b) && b != "" && word != "" && !IsBlank(word[0])
    requires prefix == define + a + (word + name) + b
    requires |prefix| < |line| && line[..|prefix|] == prefix && !IsBlank(line[|prefix|])
    requires name != "" && !IsBlank(name[0])
    ensures PrefixEnd(Lit(define, Blank1(Lit(word, Lit(name, Blank1(Core))))), line, 0) == Some(|prefix|)
  {
    var e := |define| + |a|;
    var f := e + |word| + |name|;
    LitBlankLitPieces(define, word, name, a, b, prefix, line);
    CharAt(line, e, word, 0);
    BlankRun(line, |define|, a);
    BlankRun(line, f, b);
    assert PrefixEnd(Blank1(Core), line, f) == Some(f + |b|);
    assert PrefixEnd(Lit(name, Blank1(Core)), line, e + |word|) == Some(f + |b|);
    assert PrefixEnd(Lit(word, Lit(name, Blank1(Core))), line, e) == Some(f + |b|);
    assert PrefixEnd(Blank1(Lit(word, Lit(name, Blank1(Core)))), line, |define|) == Some(f + |b|);
  }

  lemma LitBlankLitPieces(define: string, word: string, name: string, a: string, b: string, prefix: string, line: string)
    requires prefix == define + a + (word + name) + b && |prefix| <= |line| && line[..|prefix|] == prefix
    ensures var e := |define| + |a|;
            && TextAt(line, 0, define) && TextAt(line, |define|, a) && TextAt(line, e, word)
            && TextAt(line, e + |word|, name) && TextAt(line, e + |word| + |name|, b)
  {
    FourInFront(define, a, word + name, b, prefix, line);
    TextAtConcat(line, |define| + |a|, word, name);
  }

  lemma LitBlank(word: string, c: string, line: string, i: nat)
    requires TextAt(line, i, word) && TextAt(line, i + |word|, c) && AllBlank(c)
    requires i + |word| + |c| < |line| && !IsBlank(line[i + |word| + |c|])
    ensures PrefixEnd(Lit(word, Blank0(Core)), line, i) == Some(i + |word| + |c|)
  {
    BlankRun(line, i + |word|, c);
    assert PrefixEnd(Blank0(Core), line, i + |word|) == Some(i + |word| + |c|);
  }

  lemma BlankLitBlankLitBlank(star: string, word: string, a: string, b: string, c: string, prefix: string, line: string)
    requires AllBlank(a) && AllBlank(b) && AllBlank(c)
    requires star != "" && !IsBlank(star[0]) && word != "" && !IsBlank(word[0])
    requires prefix == a + star + b + (word + c)
    requires |prefix| < |line| && line[..|prefix|] == prefix && !IsBlank(line[|prefix|])
    ensures PrefixEnd(Blank0(Lit(star, Blank0(Lit(word, Blank0(Core))))), line, 0) == Some(|prefix|)
  {
    var e := |a| + |star|;
    var f := e + |b|;
    FivePiecesInFront(star, word, a, b, c, prefix, line);
    CharAt(line, |a|, star, 0);
    CharAt(line, f, word, 0);
    BlankRun(line, 0, a);
    BlankRun(line, e, b);
    LitBlank(word, c, line, f);
    assert PrefixEnd(Blank0(Lit(word, Blank0(Core))), line, e) == Some(|prefix|);
    assert PrefixEnd(Lit(star, Blank0(Lit(word, Blank0(Core)))), line, |a|) == Some(|prefix|);
  }

  lemma FivePiecesInFront(star: string, word: string, a: string, b: string, c: string, prefix: string, line: string)
    requires prefix == a + star + b + (word + c) && |prefix| <= |line| && line[..|prefix|] == prefix
    ensures var e := |a| + |star|;
            && TextAt(line, 0, a) && TextAt(line, |a|, star) && TextAt(line, e, b)
            && TextAt(line, e + |b|, word) && TextAt(line, e + |b| + |word|, c)
  {
    FourInFront(a, star, b, word + c, prefix, line);
    TextAtConcat(line, |a| + |star| + |b|, word, c);
  }

  lemma TwoPiecesInFront(word: string, c: string, prefix: string, line: string)
    requires prefix == word + c && |prefix| <= |line| && line[..|prefix|] == prefix
    ensures TextAt(line, 0, word) && TextAt(line, |word|, c)
  {
    assert TextAt(prefix, 0, word + c);
    InFront(prefix, line, 0, word + c);
    TextAtConcat(line, 0, word, c);
  }

  /* ---- What is rewritten, and to what ---- */

  /** By rule j, for a prefix that its pattern reads. */
  lemma SyncedStamp(path: Path, j: nat, prefix: string, u: Version, suffix: string, v: Version)
    requires j < |RULES| && j != 2 && RULES[j].LineRule? && Manages(RULES[j], path) && !Manages(RULES[2], path)
    requires u.Valid() && v.Valid() && AllBlank(suffix)
    requires PrefixEnd(RULES[j].pattern, prefix + Expand(RULES[j].part, u) + suffix, 0) == Some(|prefix|)
    ensures SyncLine(path, |RULES|, prefix + Expand(RULES[j].part, u) + suffix, v) == prefix + Expand(RULES[j].part, v) + suffix
  {
    CoreReplaced(RULES[j], prefix, u, suffix, v);
    OneRuleApplies(path, j, prefix + Expand(RULES[j].part, u) + suffix, prefix + Expand(RULES[j].part, v) + suffix, v);
  }

  lemma SyncedMacro(j: nat, name: string, part: Part, a: string, b: string, u: Version, suffix: string, v: Version)
    requires 3 <= j <= 5 && |RULES| == 7 && RULES[j] == MacroRule(name, part) && name != "" && !IsBlank(name[0])
    requires AllBlank(a) && a != "" && AllBlank(b) && b != "" && AllBlank(suffix) && u.Valid() && v.Valid()
    ensures var prefix := "#define" + a + ("LIBEMBEDDING_VERSION_" + name) + b;
            SyncLine(CONFIG, |RULES|, prefix + Expand(part, u) + suffix, v) == prefix + Expand(part, v) + suffix
  {
    ManagedFiles(CONFIG);
    ManagedMacros(j, CONFIG);
    MacroPrefix(name, part, a, b, u, suffix);
    SyncedStamp(CONFIG, j, "#define" + a + ("LIBEMBEDDING_VERSION_" + name) + b, u, suffix, v);
  }

  lemma MacroWords()
    ensures "LIBEMBEDDING_VERSION_" + "MAJOR" == "LIBEMBEDDING_VERSION_MAJOR"
    ensures "LIBEMBEDDING_VERSION_" + "MINOR" == "LIBEMBEDDING_VERSION_MINOR"
    ensures "LIBEMBEDDING_VERSION_" + "PATCH" == "LIBEMBEDDING_VERSION_PATCH"
  {
  }

  /** The three macros of config.h get the three numbers of the version. */
  lemma SyncedMacros(a: string, b: string, x: string, t: string, v: Version)
    requires Blanks(a) && a != "" && Blanks(b) && b != "" && Number(x) && Blanks(t) && v.Valid()
    ensures SyncLine(Path("include/libembedding", "config.h"), |RULES|, "#define" + a + "LIBEMBEDDING_VERSION_MAJOR" + b + x + t, v)
            == "#define" + a + "LIBEMBEDDING_VERSION_MAJOR" + b + v.major + t
    ensures SyncLine(Path("include/libembedding", "config.h"), |RULES|, "#define" + a + "LIBEMBEDDING_VERSION_MINOR" + b + x + t, v)
            == "#define" + a + "LIBEMBEDDING_VERSION_MINOR" + b + v.minor + t
    ensures SyncLine(Path("include/libembedding", "config.h"), |RULES|, "#define" + a + "LIBEMBEDDING_VERSION_PATCH" + b + x + t, v)
            == "#define" + a + "LIBEMBEDDING_VERSION_PATCH" + b + v.patch + t
  {
    var u := Version(x, x, x);
    MacroWords();
    SyncedMacro(3, "MAJOR", Major, a, b, u, t, v);
    SyncedMacro(4, "MINOR", Minor, a, b, u, t, v);
    SyncedMacro(5, "PATCH", Patch, a, b, u, t, v);
  }

  /** Every header file: the version of its comment block. */
  lemma SyncedHeader(path: Path, a: string, b: string, c: string, u: Version, t: string, v: Version)
    requires HeaderFile(path) && Blanks(a) && Blanks(b) && Blanks(c) && Blanks(t)
    requires Number(u.major) && Number(u.minor) && Number(u.patch) && v.Valid()
    ensures SyncLine(path, |RULES|, a + "*" + b + "Version:" + c + u.major + "." + u.minor + "." + u.patch + t, v)
            == a + "*" + b + "Version:" + c + v.major + "." + v.minor + "." + v.patch + t
  {
    HeaderStamp(path, a, b, c, u, t, v);
    Regrouped(a + "*" + b, "Version:", c, u, t);
    Regrouped(a + "*" + b, "Version:", c, v, t);
  }

  lemma HeaderStamp(path: Path, a: string, b: string, c: string, u: Version, t: string, v: Version)
    requires HeaderFile(path) && AllBlank(a) && AllBlank(b) && AllBlank(c) && AllBlank(t) && u.Valid() && v.Valid()
    ensures var prefix := a + "*" + b + ("Version:" + c);
            SyncLine(path, |RULES|, prefix + u.Text() + t, v) == prefix + v.Text() + t
  {
    var prefix := a + "*" + b + ("Version:" + c);
    ManagedFiles(path);
    HeaderPrefix(a, b, c, u, t, prefix);
    SyncedStamp(path, 0, prefix, u, t, v);
  }

  lemma HeaderPrefix(a: string, b: string, c: string, u: Version, t: string, prefix: string)
    requires AllBlank(a) && AllBlank(b) && AllBlank(c) && u.Valid() && prefix == a + "*" + b + ("Version:" + c)
    ensures PrefixEnd(HEADER_RULE.pattern, prefix + u.Text() + t, 0) == Some(|prefix|)
  {
    FirstOfCore(Full, prefix, u, t);
    BlankLitBlankLitBlank("*", "Version:", a, b, c, prefix, prefix + u.Text() + t);
  }

  lemma Regrouped(a: string, word: string, c: string, u: Version, t: string)
    ensures a + word + c + u.major + "." + u.minor + "." + u.patch + t == a + (word + c) + u.Text() + t
  {
  }

  lemma Spread(prefix: string, u: Version, t: string)
    ensures prefix + u.major + "." + u.minor + "." + u.patch + t == prefix + u.Text() + t
  {
  }

  /** Every module of the Python package: the version line of its docstring. */
  lemma SyncedPython(path: Path, c: string, u: Version, t: string, v: Version)
    requires PythonFile(path) && Blanks(c) && Blanks(t)
    requires Number(u.major) && Number(u.minor) && Number(u.patch) && v.Valid()
    ensures SyncLine(path, |RULES|, "Version:" + c + u.major + "." + u.minor + "." + u.patch + t, v)
            == "Version:" + c + v.major + "." + v.minor + "." + v.patch + t
  {
    PythonStamp(path, c, u, t, v);
    Spread("Version:" + c, u, t);
    Spread("Version:" + c, v, t);
  }

  lemma PythonStamp(path: Path, c: string, u: Version, t: string, v: Version)
    requires PythonFile(path) && AllBlank(c) && AllBlank(t) && u.Valid() && v.Valid()
    ensures SyncLine(path, |RULES|, "Version:" + c + u.Text() + t, v) == "Version:" + c + v.Text() + t
  {
    var prefix := "Version:" + c;
    ManagedFiles(path);
    FirstOfCore(Full, prefix, u, t);
    TwoPiecesInFront("Version:", c, prefix, prefix + u.Text() + t);
    LitBlank("Version:", c, prefix + u.Text() + t, 0);
    SyncedStamp(path, 1, prefix, u, t, v);
  }

  /** The current version in AGENTS.md. */
  lemma SyncedAgents(u: Version, t: string, v: Version)
    requires Blanks(t) && Number(u.major) && Number(u.minor) && Number(u.patch) && v.Valid()
    ensures SyncLine(Path("", "AGENTS.md"), |RULES|,
                     "> **Version courante** : " + u.major + "." + u.minor + "." + u.patch + t, v)
            == "> **Version courante** : " + v.major + "." + v.minor + "." + v.patch + t
  {
    AgentsStamp(AGENTS_RULE.pattern.text, u, t, v);
    Spread(AGENTS_RULE.pattern.text, u, t);
    Spread(AGENTS_RULE.pattern.text, v, t);
  }

  lemma AgentsStamp(prefix: string, u: Version, t: string, v: Version)
    requires RULES[6] == AGENTS_RULE && AGENTS_RULE.pattern == Lit(prefix, Core)
    requires AllBlank(t) && u.Valid() && v.Valid()
    ensures SyncLine(Path("", "AGENTS.md"), |RULES|, prefix + u.Text() + t, v) == prefix + v.Text() + t
  {
    var line := prefix + u.Text() + t;
    ManagedFiles(Path("", "AGENTS.md"));
    assert TextAt(line, 0, prefix);
    assert PrefixEnd(Core, line, |prefix|) == Some(|prefix|);
    SyncedStamp(Path("", "AGENTS.md"), 6, prefix, u, t, v);
  }

  /* ---- The markers of _cdefs.h ---- */

  lemma CdefsLine(line: string, v: Version)
    requires v.Valid()
    ensures SyncLine(Path("python/src/libembedding", "_cdefs.h"), |RULES|, line, v) == RewriteMarkers(line, v)
  {
    var path := Path("python/src/libembedding", "_cdefs.h");
    forall m | 0 <= m < |RULES| && m != 2 ensures !Manages(RULES[m], path) {
      OnlyMarkersManageCdefs(m);
    }
    ManagedFiles(path);
    OneRuleOf(RULES, path, |RULES|, 2, line, RewriteMarkers(line, v), v);
    LineByTable(path, |RULES|, line, v);
  }

  lemma OnlyMarkersManageCdefs(m: nat)
    requires m < |RULES| && m != 2
    ensures !Manages(RULES[m], Path("python/src/libembedding", "_cdefs.h"))
  {
    var path := Path("python/src/libembedding", "_cdefs.h");
    ManagedFiles(path);
    assert |"python/src/libembedding"| == 23 && |"include/libembedding"| == 20 && |"include/libembedding/cpp"| == 24;
    assert |"include/libembedding/detail"| == 27 && "_cdefs.h"[7] == 'h' && ".py"[2] == 'y';
    if 3 <= m <= 5 {
      ManagedMacros(m, path);
    }
  }

  /** In _cdefs.h every (vX.Y.Z) gets the version, wherever it stands. */
  lemma SyncedMarker(a: string, u: Version, b: string, v: Version)
    requires '(' !in a && Number(u.major) && Number(u.minor) && Number(u.patch) && v.Valid()
    ensures var path := Path("python/src/libembedding", "_cdefs.h");
            && SyncLine(path, |RULES|, a, v) == a
            && SyncLine(path, |RULES|, a + ("(v" + u.major + "." + u.minor + "." + u.patch + ")") + b, v)
               == a + ("(v" + v.major + "." + v.minor + "." + v.patch + ")") + SyncLine(path, |RULES|, b, v)
  {
    var before, renewed := "(v" + u.major + "." + u.minor + "." + u.patch + ")", "(v" + v.major + "." + v.minor + "." + v.patch + ")";
    assert before == Marker(u) && renewed == Marker(v);
    CdefsLine(a, v);
    CdefsLine(b, v);
    CdefsLine(a + before + b, v);
    MarkersNeedParen(a, v);
    MarkerBehind(a, u, b, v);
  }

  lemma MarkerBehind(a: string, u: Version, b: string, v: Version)
    requires '(' !in a && u.Valid()
    ensures RewriteMarkers(a + Marker(u) + b, v) == a + Marker(v) + RewriteMarkers(b, v)
  {
    var s, rest := a + Marker(u) + b, Marker(u) + b;
    Associated(a, Marker(u), b);
    assert s[..|a|] == a && s[|a|..] == rest;
    HeadKept(s, v, |a|);
    MarkerFirst(u, b, v);
    Associated(a, Marker(v), RewriteMarkers(b, v));
  }

  lemma Associated(a: string, b: string, c: string)
    ensures a + (b + c) == a + b + c
  {
  }

  lemma MarkerFirst(u: Version, b: string, v: Version)
    requires u.Valid()
    ensures RewriteMarkers(Marker(u) + b, v) == Marker(v) + RewriteMarkers(b, v)
  {
    var s := Marker(u) + b;
    MarkerEndOfMarker(s, 0, u);
    assert s[|Marker(u)|..] == b;
  }

  /** A character that does not begin such a marker stays. */
  lemma UnmarkedStays(line: string, v: Version)
    requires line != "" && v.Valid() && !exists c: nat :: Bracketed(line, 0, c)
    ensures var path := Path("python/src/libembedding", "_cdefs.h");
            SyncLine(path, |RULES|, line, v) == [line[0]] + SyncLine(path, |RULES|, line[1..], v)
  {
    CdefsLine(line, v);
    CdefsLine(line[1..], v);
    if MarkerEnd(line, 0).Some? {
      MatchedIsBracketed(line, 0);
    }
  }

  /* ---- Nothing else changes ---- */

  predicate IsMacro(line: string, name: string, a: string, b: string, x: string, t: string) {
    && Blanks(a) && a != "" && Blanks(b) && b != "" && Number(x) && Blanks(t)
    && line == "#define" + a + name + b + x + t
  }

  predicate IsVersioned(line: string, opening: string, u: Version, t: string) {
    && Number(u.major) && Number(u.minor) && Number(u.patch) && Blanks(t)
    && line == opening + u.major + "." + u.minor + "." + u.patch + t
  }

  ghost predicate MacroLine(line: string, name: string) {
    exists a, b, x, t :: IsMacro(line, name, a, b, x, t)
  }

  ghost predicate HeaderLine(line: string) {
    exists a, b, c, u, t :: Blanks(a) && Blanks(b) && Blanks(c) && IsVersioned(line, a + "*" + b + "Version:" + c, u, t)
  }

  ghost predicate PythonLine(line: string) {
    exists c, u, t :: Blanks(c) && IsVersioned(line, "Version:" + c, u, t)
  }

  ghost predicate AgentsLine(line: string) {
    exists u, t :: IsVersioned(line, "> **Version courante** : ", u, t)
  }

  lemma BlankSlice(s: string, i: nat)
    requires i <= |s|
    ensures Blanks(s[i..BlankEnd(s, i)])
    ensures TextAt(s, i, s[i..BlankEnd(s, i)])
  {
    forall k | 0 <= k < BlankEnd(s, i) - i ensures IsBlank(s[i..BlankEnd(s, i)][k]) {
      assert IsBlank(s[i + k]);
    }
  }

  lemma JoinText(s: string, i: nat, a: string, b: string)
    requires TextAt(s, i, a) && TextAt(s, i + |a|, b)
    ensures TextAt(s, i, a + b)
  {
    forall k | 0 <= k < |a + b| ensures s[i + k] == (a + b)[k] {
      if k >= |a| {
        CharAt(s, i + |a|, b, k - |a|);
      }
    }
  }

  lemma JoinFour(s: string, a: string, b: string, c: string, d: string)
    requires TextAt(s, 0, a) && TextAt(s, |a|, b) && TextAt(s, |a| + |b|, c) && TextAt(s, |a| + |b| + |c|, d)
    ensures TextAt(s, 0, a + b + c + d)
  {
    JoinText(s, 0, a, b);
    JoinText(s, 0, a + b, c);
    JoinText(s, 0, a + b + c, d);
  }

  lemma MacroPieces(define: string, word: string, name: string, line: string) returns (a: string, b: string)
    requires PrefixEnd(Lit(define, Blank1(Lit(word, Lit(name, Blank1(Core))))), line, 0).Some?
    ensures Blanks(a) && a != "" && Blanks(b) && b != ""
    ensures TextAt(line, 0, define + a + (word + name) + b)
    ensures PrefixEnd(Lit(define, Blank1(Lit(word, Lit(name, Blank1(Core))))), line, 0)
            == Some(|define + a + (word + name) + b|)
  {
    var e := BlankEnd(line, |define|);
    assert PrefixEnd(Lit(word, Lit(name, Blank1(Core))), line, e).Some?;
    assert PrefixEnd(Lit(name, Blank1(Core)), line, e + |word|).Some?;
    var f := e + |word| + |name|;
    assert PrefixEnd(Core, line, BlankEnd(line, f)) == Some(BlankEnd(line, f));
    assert PrefixEnd(Blank1(Core), line, f) == Some(BlankEnd(line, f));
    a, b := line[|define|..e], line[f..BlankEnd(line, f)];
    BlankSlice(line, |define|);
    BlankSlice(line, f);
    JoinText(line, e, word, name);
    JoinFour(line, define, a, word + name, b);
  }

  lemma WordPieces(word: string, line: string, i: nat) returns (c: string)
    requires i <= |line| && PrefixEnd(Lit(word, Blank0(Core)), line, i).Some?
    ensures Blanks(c) && TextAt(line, i, word + c)
    ensures PrefixEnd(Lit(word, Blank0(Core)), line, i).value == i + |word| + |c|
  {
    var e := i + |word|;
    assert PrefixEnd(Core, line, BlankEnd(line, e)) == Some(BlankEnd(line, e));
    assert PrefixEnd(Blank0(Core), line, e) == Some(BlankEnd(line, e));
    c := line[e..BlankEnd(line, e)];
    BlankSlice(line, e);
    JoinText(line, i, word, c);
  }

  lemma HeaderPieces(star: string, word: string, line: string) returns (a: string, b: string, c: string)
    requires PrefixEnd(Blank0(Lit(star, Blank0(Lit(word, Blank0(Core))))), line, 0).Some?
    ensures Blanks(a) && Blanks(b) && Blanks(c)
    ensures TextAt(line, 0, a + star + b + (word + c))
    ensures PrefixEnd(Blank0(Lit(star, Blank0(Lit(word, Blank0(Core))))), line, 0) == Some(|a + star + b + (word + c)|)
  {
    HeaderSteps(star, word, line);
    var e := BlankEnd(line, 0) + |star|;
    c := WordPieces(word, line, BlankEnd(line, e));
    a, b := BlanksAround(line, star, word + c);
  }

  lemma BlanksAround(line: string, star: string, text: string) returns (a: string, b: string)
    requires var e := BlankEnd(line, 0) + |star|;
             TextAt(line, BlankEnd(line, 0), star) && e <= |line| && TextAt(line, BlankEnd(line, e), text)
    ensures Blanks(a) && Blanks(b) && TextAt(line, 0, a + star + b + text)
    ensures var e := BlankEnd(line, 0) + |star|;
            e <= |line| && |a + star + b + text| == BlankEnd(line, e) + |text|
  {
    var d := BlankEnd(line, 0);
    var e := d + |star|;
    var f := BlankEnd(line, e);
    a, b := line[0..d], line[e..f];
    BlankSlice(line, 0);
    BlankSlice(line, e);
    JoinFour(line, a, star, b, text);
  }

  lemma HeaderSteps(star: string, word: string, line: string)
    requires PrefixEnd(Blank0(Lit(star, Blank0(Lit(word, Blank0(Core))))), line, 0).Some?
    ensures var e := BlankEnd(line, 0) + |star|;
            && TextAt(line, BlankEnd(line, 0), star) && e <= |line|
            && PrefixEnd(Blank0(Lit(star, Blank0(Lit(word, Blank0(Core))))), line, 0)
               == PrefixEnd(Lit(word, Blank0(Core)), line, BlankEnd(line, e))
  {
    var d := BlankEnd(line, 0);
    var rest := Blank0(Lit(word, Blank0(Core)));
    assert PrefixEnd(Blank0(Lit(star, rest)), line, 0) == PrefixEnd(Lit(star, rest), line, d);
    assert PrefixEnd(Lit(star, rest), line, d) == PrefixEnd(rest, line, d + |star|);
  }

  lemma MatchCut(pattern: Pattern, part: Part, line: string, n: nat)
    requires MatchLine(pattern, part, line).Some? && PrefixEnd(pattern, line, 0) == Some(n)
    ensures n <= |line| && CoreEnd(part, line, n).Some? && AllBlank(line[CoreEnd(part, line, n).value..])
  {
  }

  lemma FullMatch(pattern: Pattern, line: string, prefix: string) returns (u: Version, t: string)
    requires MatchLine(pattern, Full, line).Some? && PrefixEnd(pattern, line, 0) == Some(|prefix|) && TextAt(line, 0, prefix)
    ensures IsVersioned(line, prefix, u, t)
  {
    MatchCut(pattern, Full, line, |prefix|);
    u, t := VersionedFrom(line, prefix);
  }

  lemma VersionedFrom(line: string, prefix: string) returns (u: Version, t: string)
    requires TextAt(line, 0, prefix) && SemverEnd(line, |prefix|).Some? && AllBlank(line[SemverEnd(line, |prefix|).value..])
    ensures IsVersioned(line, prefix, u, t)
  {
    var n, m := |prefix|, SemverEnd(line, |prefix|).value;
    u, t := VersionAt(line, n).value, line[m..];
    TextSlice(line, 0, prefix);
    Assembled(line, prefix, m, u.Text());
    Spread(prefix, u, t);
  }

  lemma Assembled(line: string, prefix: string, m: nat, text: string)
    requires |prefix| <= m <= |line| && line[0..|prefix|] == prefix && line[|prefix|..m] == text
    ensures line == prefix + text + line[m..]
  {
    ThreeSlices(line, |prefix|, m);
  }

  lemma ThreeSlices(s: string, n: nat, m: nat)
    requires n <= m <= |s|
    ensures s == s[0..n] + s[n..m] + s[m..]
  {
  }

  lemma PartMatch(pattern: Pattern, part: Part, line: string, prefix: string) returns (x: string, t: string)
    requires part != Full && MatchLine(pattern, part, line).Some?
    requires PrefixEnd(pattern, line, 0) == Some(|prefix|) && TextAt(line, 0, prefix)
    ensures Number(x) && Blanks(t) && line == prefix + x + t
  {
    MatchCut(pattern, part, line, |prefix|);
    var n, m := |prefix|, DigitEnd(line, |prefix|);
    x, t := line[n..m], line[m..];
    TextSlice(line, 0, prefix);
    assert line == line[0..n] + x + t;
  }

  lemma MatchedMacro(name: string, part: Part, line: string)
    requires part != Full && MatchLine(MacroRule(name, part).pattern, part, line).Some?
    ensures MacroLine(line, "LIBEMBEDDING_VERSION_" + name)
  {
    var a, b := MacroPieces("#define", "LIBEMBEDDING_VERSION_", name, line);
    MatchedMacroOf(MacroRule(name, part).pattern, "LIBEMBEDDING_VERSION_" + name, part, line, a, b);
  }

  lemma MatchedMacroOf(pattern: Pattern, word: string, part: Part, line: string, a: string, b: string)
    requires part != Full && MatchLine(pattern, part, line).Some?
    requires Blanks(a) && a != "" && Blanks(b) && b != ""
    requires var prefix := "#define" + a + word + b; PrefixEnd(pattern, line, 0) == Some(|prefix|) && TextAt(line, 0, prefix)
    ensures MacroLine(line, word)
  {
    var x, t := PartMatch(pattern, part, line, "#define" + a + word + b);
    assert IsMacro(line, word, a, b, x, t);
  }

  lemma MatchedHeader(line: string)
    requires MatchLine(HEADER_RULE.pattern, Full, line).Some?
    ensures HeaderLine(line)
  {
    var a, b, c := HeaderPieces("*", "Version:", line);
    MatchedHeaderOf(HEADER_RULE.pattern, line, a, b, c);
  }

  lemma MatchedHeaderOf(pattern: Pattern, line: string, a: string, b: string, c: string)
    requires MatchLine(pattern, Full, line).Some? && Blanks(a) && Blanks(b) && Blanks(c)
    requires var prefix := a + "*" + b + ("Version:" + c); PrefixEnd(pattern, line, 0) == Some(|prefix|) && TextAt(line, 0, prefix)
    ensures HeaderLine(line)
  {
    var u, t := FullMatch(pattern, line, a + "*" + b + ("Version:" + c));
    assert a + "*" + b + ("Version:" + c) == a + "*" + b + "Version:" + c;
    assert IsVersioned(line, a + "*" + b + "Version:" + c, u, t);
  }

  lemma MatchedPython(line: string)
    requires MatchLine(PYTHON_RULE.pattern, Full, line).Some?
    ensures PythonLine(line)
  {
    var c := WordPieces("Version:", line, 0);
    var u, t := FullMatch(PYTHON_RULE.pattern, line, "Version:" + c);
  }

  lemma MatchedAgents(line: string)
    requires MatchLine(AGENTS_RULE.pattern, Full, line).Some?
    ensures AgentsLine(line)
  {
    var text := AGENTS_RULE.pattern.text;
    assert PrefixEnd(Core, line, |text|) == Some(|text|);
    var u, t := FullMatch(AGENTS_RULE.pattern, line, text);
    assert IsVersioned(line, "> **Version courante** : ", u, t);
  }

  lemma ChangedBySome(path: Path, line: string, v: Version) returns (m: nat)
    requires v.Valid() && SyncLine(path, |RULES|, line, v) != line
    ensures m < |RULES| && Manages(RULES[m], path) && ApplyLine(RULES[m], line, v) != line
  {
    if forall k :: 0 <= k < |RULES| && Manages(RULES[k], path) ==> ApplyLine(RULES[k], line, v) == line {
      NothingToDo(path, |RULES|, line, v);
    }
    m :| m < |RULES| && Manages(RULES[m], path) && ApplyLine(RULES[m], line, v) != line;
  }

  /** A sync changes no other lines: of a header, its version line; of config.h, also the three
      macros; of a Python module and of AGENTS.md, their version lines; of _cdefs.h, lines
      with a marker. */
  lemma OnlyStampsChange(path: Path, line: string, v: Version)
    requires v.Valid() && SyncLine(path, |RULES|, line, v) != line
    ensures || (HeaderFile(path) && HeaderLine(line))
            || (path == Path("include/libembedding", "config.h")
                && (MacroLine(line, "LIBEMBEDDING_VERSION_MAJOR") || MacroLine(line, "LIBEMBEDDING_VERSION_MINOR")
                    || MacroLine(line, "LIBEMBEDDING_VERSION_PATCH")))
            || (PythonFile(path) && PythonLine(line))
            || (path == Path("", "AGENTS.md") && AgentsLine(line))
            || (path == Path("python/src/libembedding", "_cdefs.h") && exists i: nat, c: nat :: Bracketed(line, i, c))
  {
    var m := ChangedBySome(path, line, v);
    ManagedFiles(path);
    if 3 <= m <= 5 {
      ManagedMacros(m, path);
      ChangedMacro(m, line, v);
    } else {
      ChangedLine(m, line, v);
    }
  }

  lemma ChangedLine(m: nat, line: string, v: Version)
    requires m < |RULES| && v.Valid() && ApplyLine(RULES[m], line, v) != line
    ensures m == 0 ==> HeaderLine(line)
    ensures m == 1 ==> PythonLine(line)
    ensures m == 2 ==> exists i: nat, c: nat :: Bracketed(line, i, c)
    ensures m == 6 ==> AgentsLine(line)
  {
    if m == 2 {
      ChangedMarkers(line, v);
    } else {
      ChangedMatches(m, line, v);
      if m == 0 {
        MatchedHeader(line);
      } else if m == 1 {
        MatchedPython(line);
      } else if m == 6 {
        MatchedAgents(line);
      }
    }
  }

  lemma ChangedMarkers(line: string, v: Version)
    requires v.Valid() && RewriteMarkers(line, v) != line
    ensures exists i: nat, c: nat :: Bracketed(line, i, c)
  {
    RewrittenMarkersStay(line, v);
    MarkerIff(line);
  }

  lemma ChangedMatches(m: nat, line: string, v: Version)
    requires m < |RULES| && m != 2 && ApplyLine(RULES[m], line, v) != line
    ensures MatchedBy(m, line)
  {
    TableShape(m);
  }

  lemma ChangedMacro(m: nat, line: string, v: Version)
    requires 3 <= m <= 5 && |RULES| == 7 && ApplyLine(RULES[m], line, v) != line
    ensures MacroLine(line, "LIBEMBEDDING_VERSION_MAJOR") || MacroLine(line, "LIBEMBEDDING_VERSION_MINOR")
            || MacroLine(line, "LIBEMBEDDING_VERSION_PATCH")
  {
    MacroWords();
    if m == 3 {
      MatchedMacro("MAJOR", Major, line);
    } else if m == 4 {
      MatchedMacro("MINOR", Minor, line);
    } else {
      MatchedMacro("PATCH", Patch, line);
    }
  }

  /** The tree after a sync: the same files with as many lines, each line synced by itself. */
  lemma SyncedFiles(files: Tree, v: Version, p: Path, i: nat)
    requires p in files && i < |files[p]|
    ensures var t := SyncedTree(files, |RULES|, v);
            && t.Keys == files.Keys && |t[p]| == |files[p]| && t[p][i] == SyncLine(p, |RULES|, files[p][i], v)
  {
  }

  /** Some rule has a file to work on exactly when the tree has a file of one of these kinds. */
  lemma AnyManagedIff(files: Tree)
    ensures AnyManaged(files) <==>
              exists p :: p in files && (HeaderFile(p) || PythonFile(p) || p == Path("include/libembedding", "config.h")
                                         || p == Path("python/src/libembedding", "_cdefs.h") || p == Path("", "AGENTS.md"))
  {
    forall p ensures (exists k :: 0 <= k < |RULES| && Manages(RULES[k], p)) <==>
                       HeaderFile(p) || PythonFile(p) || p == Path("include/libembedding", "config.h")
                       || p == Path("python/src/libembedding", "_cdefs.h") || p == Path("", "AGENTS.md")
    {
      SomeRuleIff(p);
    }
  }

  lemma SomeRuleIff(p: Path)
    ensures (exists k :: 0 <= k < |RULES| && Manages(RULES[k], p)) <==>
              HeaderFile(p) || PythonFile(p) || p == Path("include/libembedding", "config.h")
              || p == Path("python/src/libembedding", "_cdefs.h") || p == Path("", "AGENTS.md")
  {
    ManagedFiles(p);
    ManagedMacros(3, p);
    ManagedMacros(4, p);
    ManagedMacros(5, p);
  }
}

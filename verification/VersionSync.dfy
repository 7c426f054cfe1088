/** scripts/sync_version.py: the table of stamp rules and the sync over a working tree.

    A file is its list of lines; the tree maps paths to files. The rules are bound to files
    by globs, and some files (config.h) fall under several rules.
 */
module VersionSync {
  import opened Options
  import opened Sequences
  import opened Stamps

  datatype Path = Path(dir: string, name: string)

  /** All files of a directory with this suffix, or one literal path. */
  datatype Glob = Suffix(dir: string, suffix: string) | Exact(path: Path)

  datatype Rule =
    | LineRule(pattern: Pattern, part: Part, globs: seq<Glob>)
    | MarkerRule(globs: seq<Glob>)

  const CONFIG := Path("include/libembedding", "config.h")

  const HEADER_GLOBS: seq<Glob> := [
    Suffix("include/libembedding", ".h"),
    Suffix("include/libembedding", ".hpp"),
    Suffix("include/libembedding/detail", ".hpp"),
    Suffix("include/libembedding/cpp", ".hpp")]

  const HEADER_RULE := LineRule(Blank0(Lit("*", Blank0(Lit("Version:", Blank0(Core))))), Full, HEADER_GLOBS)

  const PYTHON_RULE := LineRule(Lit("Version:", Blank0(Core)), Full, [Suffix("python/src/libembedding", ".py")])

  const CDEFS_RULE := MarkerRule([Exact(Path("python/src/libembedding", "_cdefs.h"))])

  const AGENTS_RULE := LineRule(
    Lit("> **Version courante** : ", Core), Full, [Exact(Path("", "AGENTS.md"))])

  function MacroRule(name: string, part: Part): Rule {
    LineRule(Lit("#define", Blank1(Lit("LIBEMBEDDING_VERSION_", Lit(name, Blank1(Core))))), part, [Exact(CONFIG)])
  }

  const RULES: seq<Rule> := [
    HEADER_RULE,
    PYTHON_RULE,
    CDEFS_RULE,
    MacroRule("MAJOR", Major),
    MacroRule("MINOR", Minor),
    MacroRule("PATCH", Patch),
    AGENTS_RULE]

  predicate EndsWith(s: string, suffix: string) {
    |suffix| <= |s| && s[|s| - |suffix|..] == suffix
  }

  predicate Matches(glob: Glob, path: Path) {
    match glob
    case Suffix(dir, suffix) => path.dir == dir && EndsWith(path.name, suffix)
    case Exact(p) => path == p
  }

  predicate Manages(rule: Rule, path: Path) {
    exists g :: g in rule.globs && Matches(g, path)
  }

  function ApplyLine(rule: Rule, line: string, v: Version): string {
    match rule
    case LineRule(pattern, part, _) => RewriteLine(pattern, part, line, v)
    case MarkerRule(_) => RewriteMarkers(line, v)
  }

  function ApplyText(rule: Rule, text: seq<string>, v: Version): (r: seq<string>)
    ensures |r| == |text|
    ensures forall i :: 0 <= i < |text| ==> r[i] == ApplyLine(rule, text[i], v)
  {
    seq(|text|, i requires 0 <= i < |text| => ApplyLine(rule, text[i], v))
  }

  /* ---- One rule ---- */

  lemma RuleAbsorbs(rule: Rule, line: string, v: Version, w: Version)
    requires v.Valid()
    ensures ApplyLine(rule, ApplyLine(rule, line, v), w) == ApplyLine(rule, line, w)
  {
    match rule
    case LineRule(pattern, part, _) =>
      if MatchLine(pattern, part, line).Some? {
        RewrittenLineMatches(pattern, part, line, v);
      }
    case MarkerRule(_) => RewriteMarkersAbsorbs(line, v, w);
  }

  /* ---- Two different rules never meet on a line ---- */

  /** Both line rules match the line. */
  predicate BothMatch(p: Rule, q: Rule, line: string)
    requires p.LineRule? && q.LineRule?
  {
    MatchLine(p.pattern, p.part, line).Some? && MatchLine(q.pattern, q.part, line).Some?
  }

  ghost predicate Exclusive(p: Rule, q: Rule)
    requires p.LineRule? && q.LineRule?
  {
    forall line: string :: !BothMatch(p, q, line)
  }

  /** The first literal character of a pattern that starts with a literal or with blanks and a literal. */
  predicate OpensWith(pattern: Pattern, c: char) {
    !IsBlank(c)
    && match pattern
       case Lit(text, _) => text != "" && text[0] == c
       case Blank0(Lit(text, _)) => text != "" && text[0] == c
       case _ => false
  }

  lemma OpeningChar(pattern: Pattern, c: char, line: string)
    requires OpensWith(pattern, c) && PrefixEnd(pattern, line, 0).Some?
    ensures BlankEnd(line, 0) < |line| && line[BlankEnd(line, 0)] == c
  {
    if pattern.Lit? {
      assert line[0 + 0] == c;
    } else {
      assert line[BlankEnd(line, 0) + 0] == c;
    }
  }

  lemma DifferentOpenings(p: Rule, q: Rule, c: char, d: char)
    requires p.LineRule? && q.LineRule? && OpensWith(p.pattern, c) && OpensWith(q.pattern, d) && c != d
    ensures Exclusive(p, q) && Exclusive(q, p)
  {
    forall line: string ensures !BothMatch(p, q, line) && !BothMatch(q, p, line) {
      if BothMatch(p, q, line) {
        OpeningChar(p.pattern, c, line);
        OpeningChar(q.pattern, d, line);
      }
    }
  }

  // Two patterns that differ in one literal only, at the same distance from the start.
  lemma LiteralAt(a: string, b: string, name: string, line: string)
    requires PrefixEnd(Lit(a, Blank1(Lit(b, Lit(name, Blank1(Core))))), line, 0).Some?
    ensures |a| <= |line| && TextAt(line, BlankEnd(line, |a|) + |b|, name)
  {
    var e := BlankEnd(line, |a|);
    assert PrefixEnd(Lit(b, Lit(name, Blank1(Core))), line, e).Some?;
    assert PrefixEnd(Lit(name, Blank1(Core)), line, e + |b|).Some?;
  }

  lemma DifferentMacros(name: string, part: Part, name': string, part': Part, k: nat)
    requires k < |name| && k < |name'| && name[k] != name'[k]
    ensures Exclusive(MacroRule(name, part), MacroRule(name', part'))
    ensures Exclusive(MacroRule(name', part'), MacroRule(name, part))
  {
    var p, q := MacroRule(name, part), MacroRule(name', part');
    forall line: string ensures !BothMatch(p, q, line) && !BothMatch(q, p, line) {
      MacroNamed(name, part, line);
      MacroNamed(name', part', line);
      NamesDiffer(name, name', k, line);
    }
  }

  /** The name of a version macro in its place. */
  predicate NamedAt(name: string, line: string) {
    7 <= |line| && TextAt(line, BlankEnd(line, 7) + 21, name)
  }

  lemma MacroNamed(name: string, part: Part, line: string)
    ensures MatchLine(MacroRule(name, part).pattern, part, line).Some? ==> NamedAt(name, line)
  {
    if MatchLine(MacroRule(name, part).pattern, part, line).Some? {
      assert |"#define"| == 7 && |"LIBEMBEDDING_VERSION_"| == 21;
      LiteralAt("#define", "LIBEMBEDDING_VERSION_", name, line);
    }
  }

  lemma NamesDiffer(name: string, name': string, k: nat, line: string)
    requires k < |name| && k < |name'| && name[k] != name'[k]
    ensures !(NamedAt(name, line) && NamedAt(name', line))
  {
    NamedChar(name, k, line);
    NamedChar(name', k, line);
  }

  lemma NamedChar(name: string, k: nat, line: string)
    requires k < |name|
    ensures NamedAt(name, line) ==> BlankEnd(line, 7) + 21 + k < |line| && line[BlankEnd(line, 7) + 21 + k] == name[k]
  {
    if NamedAt(name, line) {
      CharAt(line, BlankEnd(line, 7) + 21, name, k);
    }
  }

  predicate NoParen(pattern: Pattern) {
    match pattern
    case Core => true
    case Lit(text, rest) => '(' !in text && NoParen(rest)
    case Blank0(rest) => NoParen(rest)
    case Blank1(rest) => NoParen(rest)
  }

  lemma {:induction false} PrefixHasNoParen(pattern: Pattern, s: string, i: nat)
    requires NoParen(pattern) && i <= |s| && PrefixEnd(pattern, s, i).Some?
    ensures forall k :: i <= k < PrefixEnd(pattern, s, i).value ==> s[k] != '('
  {
    match pattern
    case Core =>
    case Lit(text, rest) =>
      PrefixHasNoParen(rest, s, i + |text|);
      forall k | i <= k < i + |text| ensures s[k] != '(' {
        assert s[i + (k - i)] == text[k - i];
      }
    case _ => PrefixHasNoParen(pattern.rest, s, BlankEnd(s, i));
  }

  lemma MatchedLineHasNoParen(q: Rule, line: string)
    requires q.LineRule? && NoParen(q.pattern) && MatchLine(q.pattern, q.part, line).Some?
    ensures '(' !in line
  {
    var n := PrefixEnd(q.pattern, line, 0).value;
    var m := CoreEnd(q.part, line, n).value;
    PrefixHasNoParen(q.pattern, line, 0);
    forall i | 0 <= i < |line| ensures line[i] != '(' {
      assert i >= m ==> line[i] == line[m..][i - m];
    }
  }

  lemma {:induction false} MarkersNeedParen(s: string, v: Version)
    ensures '(' !in s || '(' !in RewriteMarkers(s, v) ==> RewriteMarkers(s, v) == s
    decreases |s|
  {
    if s != "" {
      match MarkerEnd(s, 0)
      case Some(n) =>
        assert RewriteMarkers(s, v)[0] == '(' == s[0];
      case None =>
        MarkersNeedParen(s[1..], v);
        assert RewriteMarkers(s, v)[1..] == RewriteMarkers(s[1..], v);
        assert s == [s[0]] + s[1..];
    }
  }

  /** Both orders of applying two rules, whatever the versions, give the same line. */
  ghost predicate Commute(p: Rule, q: Rule) {
    forall line: string, v: Version, w: Version :: v.Valid() && w.Valid() ==>
      ApplyLine(p, ApplyLine(q, line, v), w) == ApplyLine(q, ApplyLine(p, line, w), v)
  }

  lemma LineRulesCommute(p: Rule, q: Rule)
    requires p.LineRule? && q.LineRule? && Exclusive(p, q)
    ensures Commute(p, q)
  {
    forall line: string, v: Version, w: Version | v.Valid() && w.Valid()
      ensures ApplyLine(p, ApplyLine(q, line, v), w) == ApplyLine(q, ApplyLine(p, line, w), v)
    {
      assert !BothMatch(p, q, line);
      if MatchLine(q.pattern, q.part, line).Some? {
        RewrittenLineMatches(q.pattern, q.part, line, v);
        assert !BothMatch(p, q, ApplyLine(q, line, v));
      } else if MatchLine(p.pattern, p.part, line).Some? {
        RewrittenLineMatches(p.pattern, p.part, line, w);
        assert !BothMatch(p, q, ApplyLine(p, line, w));
      }
    }
  }

  lemma MarkerCommutes(p: Rule, q: Rule)
    requires p.MarkerRule? && q.LineRule? && NoParen(q.pattern)
    ensures Commute(p, q) && Commute(q, p)
  {
    forall line: string, v: Version, w: Version | v.Valid() && w.Valid()
      ensures ApplyLine(p, ApplyLine(q, line, v), w) == ApplyLine(q, ApplyLine(p, line, w), v)
    {
      MarkersNeedParen(line, w);
      if MatchLine(q.pattern, q.part, line).Some? {
        MatchedLineHasNoParen(q, line);
        RewrittenLineMatches(q.pattern, q.part, line, v);
        MatchedLineHasNoParen(q, ApplyLine(q, line, v));
        MarkersNeedParen(ApplyLine(q, line, v), w);
      } else if MatchLine(q.pattern, q.part, ApplyLine(p, line, w)).Some? {
        MatchedLineHasNoParen(q, ApplyLine(p, line, w));
      }
    }
  }

  // The opening character of every line rule, by its place in the table.
  function Opening(k: nat): char
    requires k < |RULES| && k != 2
  {
    if k == 0 then '*' else if k == 1 then 'V' else if k == 6 then '>' else '#'
  }

  predicate Shaped(rule: Rule, c: char) { rule.LineRule? && OpensWith(rule.pattern, c) && NoParen(rule.pattern) }

  lemma HeaderShape()
    ensures Shaped(HEADER_RULE, '*')
  {
    var number := Lit("Version:", Blank0(Core));
    assert NoParen(number) && NoParen(Lit("*", Blank0(number)));
  }

  lemma PythonShape()
    ensures Shaped(PYTHON_RULE, 'V')
  {
  }

  lemma AgentsShape()
    ensures Shaped(AGENTS_RULE, '>')
  {
  }

  lemma MacroShape(name: string, part: Part)
    requires '(' !in name
    ensures Shaped(MacroRule(name, part), '#')
  {
    var number := Lit(name, Blank1(Core));
    assert NoParen(number) && NoParen(Lit("LIBEMBEDDING_VERSION_", number));
  }

  lemma TableShape(k: nat)
    requires k < |RULES| && k != 2
    ensures Shaped(RULES[k], Opening(k))
  {
    if k == 0 {
      HeaderShape();
    } else if k == 1 {
      PythonShape();
    } else if k == 6 {
      AgentsShape();
    } else {
      MacroShape("MAJOR", Major);
      MacroShape("MINOR", Minor);
      MacroShape("PATCH", Patch);
    }
  }

  lemma MacrosExclusive(j: nat, k: nat)
    requires 3 <= j < k <= 5
    ensures RULES[j].LineRule? && RULES[k].LineRule?
    ensures Exclusive(RULES[j], RULES[k]) && Exclusive(RULES[k], RULES[j])
  {
    if k == 4 {
      DifferentMacros("MAJOR", Major, "MINOR", Minor, 1);
    } else if j == 3 {
      DifferentMacros("MAJOR", Major, "PATCH", Patch, 0);
    } else {
      DifferentMacros("MINOR", Minor, "PATCH", Patch, 0);
    }
  }

  /** Any two different rules of the table commute, on every line and for all versions. */
  lemma RulesCommute(j: nat, k: nat)
    requires j < |RULES| && k < |RULES| && j != k
    ensures Commute(RULES[j], RULES[k])
  {
    if j == 2 || k == 2 {
      TableShape(if j == 2 then k else j);
      MarkerCommutes(RULES[2], RULES[if j == 2 then k else j]);
    } else {
      TableShape(j);
      TableShape(k);
      if Opening(j) != Opening(k) {
        DifferentOpenings(RULES[j], RULES[k], Opening(j), Opening(k));
      } else {
        MacrosExclusive(if j < k then j else k, if j < k then k else j);
      }
      LineRulesCommute(RULES[j], RULES[k]);
    }
  }

  /* ---- All the rules of a file ---- */

  /** A line of the file after the first k rules have been applied in table order. */
  function SyncLine(path: Path, k: nat, line: string, v: Version): string
    requires k <= |RULES|
  {
    if k == 0 then line
    else if Manages(RULES[k - 1], path) then ApplyLine(RULES[k - 1], SyncLine(path, k - 1, line, v), v)
    else SyncLine(path, k - 1, line, v)
  }

  function SyncText(path: Path, k: nat, text: seq<string>, v: Version): (r: seq<string>)
    requires k <= |RULES|
    ensures |r| == |text|
    ensures forall i :: 0 <= i < |text| ==> r[i] == SyncLine(path, k, text[i], v)
  {
    seq(|text|, i requires 0 <= i < |text| => SyncLine(path, k, text[i], v))
  }

  lemma SwapRules(p: Rule, q: Rule, applies: bool, line: string, moved: string, v: Version, w: Version)
    requires Commute(p, q) && v.Valid() && w.Valid() && ApplyLine(p, line, w) == moved
    ensures ApplyLine(p, if applies then ApplyLine(q, line, v) else line, w) == if applies then ApplyLine(q, moved, v) else moved
  {
  }

  lemma SyncLineNext(path: Path, k: nat, line: string, v: Version)
    requires k < |RULES|
    ensures var before := SyncLine(path, k, line, v);
            SyncLine(path, k + 1, line, v) == if Manages(RULES[k], path) then ApplyLine(RULES[k], before, v) else before
  {
  }

  // A later rule can be moved before the first k.
  lemma {:induction false} LaterRuleCommutes(path: Path, k: nat, j: nat, line: string, v: Version, w: Version)
    requires k <= j < |RULES| && v.Valid() && w.Valid()
    ensures ApplyLine(RULES[j], SyncLine(path, k, line, v), w) == SyncLine(path, k, ApplyLine(RULES[j], line, w), v)
  {
    if k > 0 {
      LaterRuleCommutes(path, k - 1, j, line, v, w);
      RulesCommute(j, k - 1);
      SwapRules(RULES[j], RULES[k - 1], Manages(RULES[k - 1], path),
                SyncLine(path, k - 1, line, v), SyncLine(path, k - 1, ApplyLine(RULES[j], line, w), v), v, w);
      SyncLineNext(path, k - 1, line, v);
      SyncLineNext(path, k - 1, ApplyLine(RULES[j], line, w), v);
    }
  }

  /** The rules of one file do not disturb each other: syncing to v and then to w is
      syncing to w. With v == w this is idempotence. */
  lemma {:induction false} SyncLineAbsorbs(path: Path, k: nat, line: string, v: Version, w: Version)
    requires k <= |RULES| && v.Valid() && w.Valid()
    ensures SyncLine(path, k, SyncLine(path, k, line, v), w) == SyncLine(path, k, line, w)
  {
    if k > 0 {
      var before := SyncLine(path, k - 1, line, v);
      SyncLineAbsorbs(path, k - 1, line, v, w);
      if Manages(RULES[k - 1], path) {
        LaterRuleCommutes(path, k - 1, k - 1, before, w, v);
        RuleAbsorbs(RULES[k - 1], SyncLine(path, k - 1, before, w), v, w);
      }
    }
  }

  lemma ApplyLineKeepsNonDigits(rule: Rule, line: string, v: Version)
    requires v.Valid()
    ensures NonDigits(ApplyLine(rule, line, v)) == NonDigits(line)
  {
    match rule
    case LineRule(pattern, part, _) => RewriteLineKeepsNonDigits(pattern, part, line, v);
    case MarkerRule(_) => RewriteMarkersKeepsNonDigits(line, v);
  }

  /** A sync changes nothing but digits, on any line of any file. */
  lemma {:induction false} SyncLineKeepsNonDigits(path: Path, k: nat, line: string, v: Version)
    requires k <= |RULES| && v.Valid()
    ensures NonDigits(SyncLine(path, k, line, v)) == NonDigits(line)
  {
    if k > 0 {
      SyncLineKeepsNonDigits(path, k - 1, line, v);
      ApplyLineKeepsNonDigits(RULES[k - 1], SyncLine(path, k - 1, line, v), v);
    }
  }

  lemma StaysSettled(p: Rule, q: Rule, line: string, v: Version)
    requires Commute(p, q) && v.Valid() && ApplyLine(p, line, v) == line
    ensures ApplyLine(p, ApplyLine(q, line, v), v) == ApplyLine(q, line, v)
  {
  }

  /** After a sync no rule of the file has anything left to do. */
  lemma {:induction false} SyncLineSettles(path: Path, k: nat, j: nat, line: string, v: Version)
    requires j < k <= |RULES| && Manages(RULES[j], path) && v.Valid()
    ensures ApplyLine(RULES[j], SyncLine(path, k, line, v), v) == SyncLine(path, k, line, v)
  {
    var before, last := SyncLine(path, k - 1, line, v), RULES[k - 1];
    if j == k - 1 {
      RuleAbsorbs(last, before, v, v);
    } else {
      SyncLineSettles(path, k - 1, j, line, v);
      if Manages(last, path) {
        RulesCommute(j, k - 1);
        StaysSettled(RULES[j], last, before, v);
      }
    }
  }

  lemma {:induction false} NothingToDo(path: Path, k: nat, line: string, v: Version)
    requires k <= |RULES|
    requires forall j :: 0 <= j < k && Manages(RULES[j], path) ==> ApplyLine(RULES[j], line, v) == line
    ensures SyncLine(path, k, line, v) == line
  {
    if k > 0 {
      NothingToDo(path, k - 1, line, v);
    }
  }

  /** A rule is stale on a file when applying it would change the file. */
  predicate Stale(rule: Rule, path: Path, text: seq<string>, v: Version) {
    Manages(rule, path) && ApplyText(rule, text, v) != text
  }

  predicate InSync(path: Path, text: seq<string>, v: Version) {
    SyncText(path, |RULES|, text, v) == text
  }

  /** No stale rule, rule by rule, means that the whole sync is a no-op, and conversely. */
  lemma InSyncIffNothingStale(path: Path, text: seq<string>, v: Version)
    requires v.Valid()
    ensures InSync(path, text, v) <==> forall k :: 0 <= k < |RULES| ==> !Stale(RULES[k], path, text, v)
  {
    if InSync(path, text, v) {
      forall k | 0 <= k < |RULES| ensures !Stale(RULES[k], path, text, v) {
        if Manages(RULES[k], path) {
          forall i | 0 <= i < |text| ensures ApplyLine(RULES[k], text[i], v) == text[i] {
            SyncLineSettles(path, |RULES|, k, text[i], v);
            assert SyncText(path, |RULES|, text, v)[i] == text[i];
          }
        }
      }
    }
    if forall k :: 0 <= k < |RULES| ==> !Stale(RULES[k], path, text, v) {
      forall i | 0 <= i < |text| ensures SyncLine(path, |RULES|, text[i], v) == text[i] {
        forall k | 0 <= k < |RULES| && Manages(RULES[k], path) ensures ApplyLine(RULES[k], text[i], v) == text[i] {
          assert !Stale(RULES[k], path, text, v);
          assert ApplyText(RULES[k], text, v)[i] == text[i];
        }
        NothingToDo(path, |RULES|, text[i], v);
      }
    }
  }

  /* ---- The working tree ---- */

  type Tree = map<Path, seq<string>>

  function SyncedTree(files: Tree, k: nat, v: Version): (t: Tree)
    requires k <= |RULES|
    ensures t.Keys == files.Keys
  {
    map p | p in files :: SyncText(p, k, files[p], v)
  }

  predicate TreeInSync(files: Tree, v: Version) {
    forall p :: p in files ==> InSync(p, files[p], v)
  }

  predicate AnyManaged(files: Tree) {
    exists k, p :: 0 <= k < |RULES| && p in files && Manages(RULES[k], p)
  }

  /** Syncing a tree to v and then to w leaves what syncing to w alone would leave. */
  lemma SyncedTreeAbsorbs(files: Tree, v: Version, w: Version)
    requires v.Valid() && w.Valid()
    ensures SyncedTree(SyncedTree(files, |RULES|, v), |RULES|, w) == SyncedTree(files, |RULES|, w)
  {
    forall p | p in files
      ensures SyncText(p, |RULES|, SyncText(p, |RULES|, files[p], v), w) == SyncText(p, |RULES|, files[p], w)
    {
      var text := files[p];
      forall i | 0 <= i < |text|
        ensures SyncLine(p, |RULES|, SyncLine(p, |RULES|, text[i], v), w) == SyncLine(p, |RULES|, text[i], w)
      {
        SyncLineAbsorbs(p, |RULES|, text[i], v, w);
      }
    }
  }

  /** A tree is in sync right after a sync, and a tree in sync is left as it is. */
  lemma SyncedTreeIsInSync(files: Tree, v: Version)
    requires v.Valid()
    ensures TreeInSync(SyncedTree(files, |RULES|, v), v)
    ensures TreeInSync(files, v) <==> SyncedTree(files, |RULES|, v) == files
  {
    var synced := SyncedTree(files, |RULES|, v);
    SyncedTreeAbsorbs(files, v, v);
    forall p | p in files ensures InSync(p, synced[p], v) {
      assert SyncedTree(synced, |RULES|, v)[p] == synced[p];
    }
    if synced == files {
      forall p | p in files ensures InSync(p, files[p], v) {
        assert synced[p] == files[p];
      }
    }
  }

  /** The tree after one rule has gone over all the files it manages. */
  function RuleApplied(files: Tree, rule: Rule, v: Version): Tree {
    map p | p in files :: if Manages(rule, p) then ApplyText(rule, files[p], v) else files[p]
  }

  lemma NextRule(files: Tree, k: nat, v: Version)
    requires k < |RULES|
    ensures SyncedTree(files, k + 1, v) == RuleApplied(SyncedTree(files, k, v), RULES[k], v)
  {
    forall p | p in files
      ensures SyncText(p, k + 1, files[p], v)
              == if Manages(RULES[k], p) then ApplyText(RULES[k], SyncText(p, k, files[p], v), v) else SyncText(p, k, files[p], v)
    {
    }
  }

  /** The files on which a rule is stale. */
  function StalePaths(files: Tree, rule: Rule, v: Version): set<Path> {
    set p | p in files && Stale(rule, p, files[p], v)
  }

  /* One pass of an edit over a set of files, whatever the edit. */

  function EditedIn<K, V(==)>(files: map<K, V>, done: set<K>, edit: V -> V): set<K> {
    set p | p in done && p in files && edit(files[p]) != files[p]
  }

  function EditedTree<K, V>(files: map<K, V>, done: set<K>, edit: V -> V): map<K, V> {
    map p | p in files :: if p in done then edit(files[p]) else files[p]
  }

  /** The state of the pass after some of the files. */
  ghost predicate Over<K, V>(before: map<K, V>, done: set<K>, edit: V -> V, checkOnly: bool,
                             files: map<K, V>, changed: nat, stale: bool) {
    && files == (if checkOnly then before else EditedTree(before, done, edit))
    && (stale <==> checkOnly && EditedIn(before, done, edit) != {})
    && changed == if checkOnly then 0 else |EditedIn(before, done, edit)|
  }

  lemma OverNone<K, V>(files: map<K, V>, edit: V -> V, checkOnly: bool)
    ensures Over(files, {}, edit, checkOnly, files, 0, false)
  {
    assert EditedTree(files, {}, edit) == files && EditedIn(files, {}, edit) == {};
  }

  lemma EditedInNext<K, V>(before: map<K, V>, done: set<K>, path: K, edit: V -> V)
    requires path in before && path !in done
    ensures EditedIn(before, done + {path}, edit)
            == if edit(before[path]) != before[path] then EditedIn(before, done, edit) + {path} else EditedIn(before, done, edit)
    ensures path !in EditedIn(before, done, edit)
  {
  }

  lemma EditedTreeNext<K, V>(before: map<K, V>, done: set<K>, path: K, edit: V -> V)
    requires path in before && path !in done
    ensures EditedTree(before, done, edit)[path] == before[path]
    ensures EditedTree(before, done + {path}, edit) == EditedTree(before, done, edit)[path := edit(before[path])]
  {
  }

  lemma OverNext<K, V>(before: map<K, V>, done: set<K>, path: K, edit: V -> V, checkOnly: bool,
                       files: map<K, V>, changed: nat, stale: bool)
    requires Over(before, done, edit, checkOnly, files, changed, stale) && path in before && path !in done
    ensures path in files && files[path] == before[path]
    ensures var updated := edit(before[path]);
            if updated == before[path] then Over(before, done + {path}, edit, checkOnly, files, changed, stale)
            else if checkOnly then Over(before, done + {path}, edit, checkOnly, files, changed, true)
            else Over(before, done + {path}, edit, checkOnly, files[path := updated], changed + 1, stale)
  {
    EditedInNext(before, done, path, edit);
    EditedTreeNext(before, done, path, edit);
    if edit(before[path]) == before[path] {
      assert EditedTree(before, done, edit)[path := before[path]] == EditedTree(before, done, edit);
    }
  }

  function RuleEdit(rule: Rule, v: Version): seq<string> -> seq<string> { text => ApplyText(rule, text, v) }

  lemma EveryFile(files: Tree, rule: Rule, v: Version)
    ensures var all := set p | p in files && Manages(rule, p);
            && EditedTree(files, all, RuleEdit(rule, v)) == RuleApplied(files, rule, v)
            && EditedIn(files, all, RuleEdit(rule, v)) == StalePaths(files, rule, v)
  {
    var all := set p | p in files && Manages(rule, p);
    forall p | p in files
      ensures EditedTree(files, all, RuleEdit(rule, v))[p] == RuleApplied(files, rule, v)[p]
      ensures p in EditedIn(files, all, RuleEdit(rule, v)) <==> p in StalePaths(files, rule, v)
    {
    }
  }

  /** The tree after the first k of the rules, one after the other. */
  function RulesApplied(files: Tree, rules: seq<Rule>, k: nat, v: Version): Tree
    requires k <= |rules|
  {
    if k == 0 then files else RuleApplied(RulesApplied(files, rules, k - 1, v), rules[k - 1], v)
  }

  /** How many rule and file pairs they rewrite. */
  function Rewrites(files: Tree, rules: seq<Rule>, k: nat, v: Version): nat
    requires k <= |rules|
  {
    if k == 0 then 0
    else Rewrites(files, rules, k - 1, v) + |StalePaths(RulesApplied(files, rules, k - 1, v), rules[k - 1], v)|
  }

  /** Is one of them stale somewhere? */
  predicate StaleUpTo(files: Tree, rules: seq<Rule>, k: nat, v: Version)
    requires k <= |rules|
  {
    k > 0 && (StaleUpTo(files, rules, k - 1, v) || StalePaths(files, rules[k - 1], v) != {})
  }

  lemma RuleChangesIff(files: Tree, rule: Rule, v: Version)
    ensures |StalePaths(files, rule, v)| == 0 <==> RuleApplied(files, rule, v) == files
  {
    if RuleApplied(files, rule, v) == files {
      forall p | p in files ensures !Stale(rule, p, files[p], v) {
        assert RuleApplied(files, rule, v)[p] == files[p];
      }
    } else {
      var p :| p in files && RuleApplied(files, rule, v)[p] != files[p];
      assert p in StalePaths(files, rule, v);
    }
  }

  lemma ChangedFiles(files: Tree, rule: Rule, v: Version)
    ensures var t := RuleApplied(files, rule, v);
            t.Keys == files.Keys && StalePaths(files, rule, v) == set p | p in t && t[p] != files[p]
  {
  }

  class Repository {
    var files: Tree

    constructor (files: Tree)
      ensures this.files == files
    {
      this.files := files;
    }

    /** One turn of the outer loop: a rule over the files it manages, in any order. `changed`
        counts the files it rewrites, which are those on which it is stale. */
    method ApplyRule(rule: Rule, v: Version, checkOnly: bool) returns (changed: nat, stale: bool)
      modifies this
      ensures files == if checkOnly then old(files) else RuleApplied(old(files), rule, v)
      ensures stale <==> checkOnly && StalePaths(old(files), rule, v) != {}
      ensures changed == if checkOnly then 0 else |StalePaths(old(files), rule, v)|
      ensures files.Keys == old(files).Keys
      ensures !checkOnly ==> changed == |set p | p in files && files[p] != old(files)[p]|
    {
      ChangedFiles(files, rule, v);
      EveryFile(files, rule, v);
      var paths := set p | p in files && Manages(rule, p);
      changed, stale := Pass(paths, RuleEdit(rule, v), checkOnly);
    }

    /** The loop over the files, in any order. */
    method Pass(paths: set<Path>, edit: seq<string> -> seq<string>, checkOnly: bool) returns (changed: nat, stale: bool)
      requires paths <= files.Keys
      modifies this
      ensures Over(old(files), paths, edit, checkOnly, files, changed, stale)
    {
      ghost var before, done := files, {};
      var todo := paths;
      changed, stale := 0, false;
      OverNone(files, edit, checkOnly);
      while todo != {}
        invariant done <= paths && todo == paths - done
        invariant Over(before, done, edit, checkOnly, files, changed, stale)
        decreases |todo|
      {
        var path :| path in todo;
        OverNext(before, done, path, edit, checkOnly, files, changed, stale);
        todo := todo - {path};
        done := done + {path};
        var original := files[path];
        var updated := edit(original);
        if checkOnly {
          if updated != original {
            stale := true;
          }
        } else if updated != original {
          files := files[path := updated];
          changed := changed + 1;
        }
      }
      assert done == paths;
    }

    /** sync(version, check_only). The exit code is 1 when no rule matches any file; in
        check mode it is 1 exactly when some file is out of sync, and nothing is written.
        In write mode the tree becomes the synced tree and the code is always 0: the test
        that should report an unrecognised stamp can never succeed. */
    method Sync(v: Version, checkOnly: bool) returns (code: int, changed: nat)
      requires v.Valid()
      modifies this
      ensures !AnyManaged(old(files)) ==> code == 1 && files == old(files)
      ensures checkOnly ==> files == old(files)
      ensures AnyManaged(old(files)) && checkOnly ==> code == if TreeInSync(files, v) then 0 else 1
      ensures AnyManaged(old(files)) && !checkOnly ==> code == 0 && files == SyncedTree(old(files), |RULES|, v)
      ensures changed == if checkOnly then 0 else Rewrites(old(files), RULES, |RULES|, v)
    {
      RewritesIff(files, v);
      if !AnyManaged(files) {
        UnmanagedInSync(files, v);
        return 1, 0;
      }
      InOrder(files, |RULES|, v);
      TreeInSyncIffNothingStale(files, v);
      code, changed := SyncRules(RULES, v, checkOnly);
    }

    /** The loop over the rules. */
    method SyncRules(rules: seq<Rule>, v: Version, checkOnly: bool) returns (code: int, changed: nat)
      modifies this
      ensures Progress(rules, old(files), |rules|, v, checkOnly, files, code, changed)
    {
      code, changed := 0, 0;
      for k := 0 to |rules|
        invariant Progress(rules, old(files), k, v, checkOnly, files, code, changed)
      {
        var n, stale := ApplyRule(rules[k], v, checkOnly);
        changed := changed + n;
        if stale {
          code := 1;
        }
      }
    }
  }

  /** After the first k rules: in check mode the tree is as before and the code says whether
      one of them is stale; in write mode they have been applied and the rewrites counted. */
  ghost predicate Progress(rules: seq<Rule>, before: Tree, k: nat, v: Version, checkOnly: bool,
                           files: Tree, code: int, changed: nat)
    requires k <= |rules|
  {
    if checkOnly then files == before && changed == 0 && code == if StaleUpTo(before, rules, k, v) then 1 else 0
    else files == RulesApplied(before, rules, k, v) && code == 0 && changed == Rewrites(before, rules, k, v)
  }

  lemma {:induction false} InOrder(files: Tree, k: nat, v: Version)
    requires k <= |RULES|
    ensures RulesApplied(files, RULES, k, v) == SyncedTree(files, k, v)
  {
    if k == 0 {
      NoRulesNoChange(files, v);
    } else {
      InOrder(files, k - 1, v);
      InOrderNext(files, k - 1, v, SyncedTree(files, k - 1, v));
    }
  }

  lemma InOrderNext(files: Tree, k: nat, v: Version, t: Tree)
    requires k < |RULES| && RulesApplied(files, RULES, k, v) == t && SyncedTree(files, k, v) == t
    ensures RulesApplied(files, RULES, k + 1, v) == SyncedTree(files, k + 1, v)
  {
    RulesAppliedNext(files, RULES, k, v);
    NextRule(files, k, v);
  }

  lemma RulesAppliedNext(files: Tree, rules: seq<Rule>, k: nat, v: Version)
    requires k < |rules|
    ensures RulesApplied(files, rules, k + 1, v) == RuleApplied(RulesApplied(files, rules, k, v), rules[k], v)
  {
  }

  predicate StaleSomewhere(files: Tree, rule: Rule, v: Version) {
    exists p :: p in files && Stale(rule, p, files[p], v)
  }

  lemma StaleSomewhereIff(files: Tree, rule: Rule, v: Version)
    ensures StalePaths(files, rule, v) != {} <==> StaleSomewhere(files, rule, v)
  {
    if p :| p in files && Stale(rule, p, files[p], v) {
      assert p in StalePaths(files, rule, v);
    }
  }

  lemma {:induction false} StaleUpToIff(files: Tree, rules: seq<Rule>, k: nat, v: Version)
    requires k <= |rules|
    ensures StaleUpTo(files, rules, k, v) <==> exists j :: 0 <= j < k && StaleSomewhere(files, rules[j], v)
  {
    if k > 0 {
      StaleUpToIff(files, rules, k - 1, v);
      StaleSomewhereIff(files, rules[k - 1], v);
    }
  }

  lemma TreeInSyncIffNothingStale(files: Tree, v: Version)
    requires v.Valid()
    ensures TreeInSync(files, v) <==> !StaleUpTo(files, RULES, |RULES|, v)
  {
    StaleUpToIff(files, RULES, |RULES|, v);
    forall p | p in files
      ensures InSync(p, files[p], v) <==> forall j :: 0 <= j < |RULES| ==> !Stale(RULES[j], p, files[p], v)
    {
      InSyncIffNothingStale(p, files[p], v);
    }
  }

  lemma RewritesStep(files: Tree, rules: seq<Rule>, k: nat, v: Version)
    requires k < |rules|
    ensures Rewrites(files, rules, k + 1, v) >= Rewrites(files, rules, k, v)
    ensures Rewrites(files, rules, k + 1, v) == Rewrites(files, rules, k, v)
            <==> RulesApplied(files, rules, k + 1, v) == RulesApplied(files, rules, k, v)
  {
    RuleChangesIff(RulesApplied(files, rules, k, v), rules[k], v);
  }

  /** No rule undoes what an earlier one wrote. */
  lemma {:induction false} RewritesLast(files: Tree, k: nat, v: Version)
    requires k <= |RULES| && v.Valid()
    ensures Rewrites(files, RULES, k, v) == 0 ==> RulesApplied(files, RULES, k, v) == files
    ensures Rewrites(files, RULES, k, v) > 0 ==> !TreeInSync(files, v)
  {
    if k > 0 {
      RewritesLast(files, k - 1, v);
      RewritesStep(files, RULES, k - 1, v);
      AppliedChangeIsLasting(files, k - 1, v);
    }
  }

  /** A sync rewrites something exactly when the tree is out of sync, and then changes it. */
  lemma RewritesIff(files: Tree, v: Version)
    requires v.Valid()
    ensures Rewrites(files, RULES, |RULES|, v) == 0 <==> TreeInSync(files, v)
    ensures Rewrites(files, RULES, |RULES|, v) == 0 <==> SyncedTree(files, |RULES|, v) == files
  {
    RewritesLast(files, |RULES|, v);
    InOrder(files, |RULES|, v);
    SyncedTreeIsInSync(files, v);
  }

  lemma UnmanagedInSync(files: Tree, v: Version)
    requires v.Valid() && !AnyManaged(files)
    ensures TreeInSync(files, v)
  {
    forall p | p in files ensures InSync(p, files[p], v) {
      InSyncIffNothingStale(p, files[p], v);
    }
  }

  lemma StepChangeIsLasting(files: Tree, k: nat, v: Version)
    requires k < |RULES| && v.Valid()
    ensures SyncedTree(files, k + 1, v) != SyncedTree(files, k, v) ==> !TreeInSync(files, v)
  {
    if SyncedTree(files, k + 1, v) != SyncedTree(files, k, v) {
      var p :| p in files && SyncText(p, k + 1, files[p], v) != SyncText(p, k, files[p], v);
      RuleChangeIsLasting(p, k, files[p], v);
    }
  }

  lemma AppliedChangeIsLasting(files: Tree, k: nat, v: Version)
    requires k < |RULES| && v.Valid()
    ensures RulesApplied(files, RULES, k + 1, v) != RulesApplied(files, RULES, k, v) ==> !TreeInSync(files, v)
  {
    InOrder(files, k, v);
    InOrder(files, k + 1, v);
    StepChangeIsLasting(files, k, v);
  }

  lemma NoRulesNoChange(files: Tree, v: Version)
    ensures SyncedTree(files, 0, v) == files
  {
    forall p | p in files ensures SyncText(p, 0, files[p], v) == files[p] {
    }
  }

  /** A file that some rule changes on the way is not in sync to begin with. */
  lemma RuleChangeIsLasting(path: Path, k: nat, text: seq<string>, v: Version)
    requires k < |RULES| && v.Valid()
    requires SyncText(path, k + 1, text, v) != SyncText(path, k, text, v)
    ensures !InSync(path, text, v)
  {
    InSyncIffNothingStale(path, text, v);
    if InSync(path, text, v) {
      forall i, n: nat | 0 <= i < |text| && n <= |RULES| ensures SyncLine(path, n, text[i], v) == text[i] {
        forall j | 0 <= j < n && Manages(RULES[j], path) ensures ApplyLine(RULES[j], text[i], v) == text[i] {
          assert !Stale(RULES[j], path, text, v);
          assert ApplyText(RULES[j], text, v)[i] == text[i];
        }
        NothingToDo(path, n, text[i], v);
      }
    }
  }
}

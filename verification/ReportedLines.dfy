/** What scripts/sync_branch.py reports of a diff, in characters: which lines count as version
    stamps, and what the report of any diff is made of.
 */
module ReportedLines {
  import opened Options
  import opened Sequences
  import opened Stamps
  import opened Diffs

  predicate Digits(s: string, i: nat, j: nat) {
    i < j <= |s| && forall k :: i <= k < j ==> '0' <= s[k] <= '9'
  }

  /** Digits, a dot, digits, a dot, digits, from i to c. */
  ghost predicate Dotted(s: string, i: nat, c: nat) {
    exists a: nat, b: nat :: Digits(s, i, a) && Digits(s, a + 1, b) && Digits(s, b + 1, c) && s[a] == s[b] == '.'
  }

  predicate ReadsVersion(s: string, i: nat) { Reads(s, i, "Version") || Reads(s, i, "version") }

  /** (vX.Y.Z), the closing parenthesis at c. */
  ghost predicate Bracketed(s: string, i: nat, c: nat) {
    Reads(s, i, "(v") && Dotted(s, i + 2, c) && Reads(s, c, ")")
  }

  /** The macro name; the word, and X.Y.Z somewhere behind it; or (vX.Y.Z). */
  ghost predicate SpellsStamp(s: string) {
    || (exists i: nat :: Reads(s, i, "LIBEMBEDDING_VERSION"))
    || (exists i: nat, j: nat, c: nat :: i + 7 <= j && ReadsVersion(s, i) && Dotted(s, j, c))
    || exists i: nat, c: nat :: Bracketed(s, i, c)
  }

  ghost predicate Telling(line: string) {
    && (exists k :: 0 <= k < |line| && line[k] !in " \t\r" && line[k] != 11 as char && line[k] != 12 as char)
    && !SpellsStamp(line)
  }

  lemma DottedIff(s: string, i: nat)
    requires i <= |s|
    ensures SemverEnd(s, i).Some? <==> exists c: nat :: Dotted(s, i, c)
    ensures forall c: nat :: Dotted(s, i, c) && (c == |s| || !IsDigit(s[c])) ==> SemverEnd(s, i) == Some(c)
    ensures SemverEnd(s, i).Some? ==> Dotted(s, i, SemverEnd(s, i).value)
  {
    if SemverEnd(s, i).Some? {
      RunsOfSemverEnd(s, i);
      RunsAreDotted(s, i, DigitEnd(s, i), DigitEnd(s, DigitEnd(s, i) + 1), SemverEnd(s, i).value);
    }
    forall c: nat | Dotted(s, i, c)
      ensures SemverEnd(s, i).Some? && (c == |s| || !IsDigit(s[c]) ==> SemverEnd(s, i) == Some(c))
    {
      DottedMatches(s, i, c);
    }
  }

  lemma RunsAreDotted(s: string, i: nat, a: nat, b: nat, c: nat)
    requires Runs(s, i, a, b, c)
    ensures Dotted(s, i, c)
  {
    assert Digits(s, i, a) && Digits(s, a + 1, b) && Digits(s, b + 1, c);
  }

  lemma DottedMatches(s: string, i: nat, c: nat)
    requires i <= |s| && Dotted(s, i, c)
    ensures SemverEnd(s, i).Some?
    ensures c == |s| || !IsDigit(s[c]) ==> SemverEnd(s, i) == Some(c)
  {
    var a: nat, b: nat :| Digits(s, i, a) && Digits(s, a + 1, b) && Digits(s, b + 1, c) && s[a] == s[b] == '.';
    ThreeRuns(s, i, a, b, c);
    SemverEndOfRuns(s, i, a, b, DigitEnd(s, b + 1));
  }

  lemma ThreeRuns(s: string, i: nat, a: nat, b: nat, c: nat)
    requires Digits(s, i, a) && Digits(s, a + 1, b) && Digits(s, b + 1, c) && s[a] == s[b] == '.'
    ensures Runs(s, i, a, b, DigitEnd(s, b + 1))
    ensures c == |s| || !IsDigit(s[c]) ==> DigitEnd(s, b + 1) == c
  {
    DigitEndIs(s, i, a);
    DigitEndIs(s, a + 1, b);
    assert IsDigit(s[b + 1]);
    if c == |s| || !IsDigit(s[c]) {
      DigitEndIs(s, b + 1, c);
    }
  }

  lemma MacroNameIff(s: string)
    ensures HasMacroName(s) <==> exists i: nat :: Reads(s, i, "LIBEMBEDDING_VERSION")
  {
    forall i: nat ensures TextAt(s, i, "LIBEMBEDDING_VERSION") <==> Reads(s, i, "LIBEMBEDDING_VERSION") {
      ReadsIsText(s, i, "LIBEMBEDDING_VERSION");
    }
  }

  lemma VersionStampIff(s: string)
    ensures HasVersionStamp(s) <==> exists i: nat, j: nat, c: nat :: i + 7 <= j && ReadsVersion(s, i) && Dotted(s, j, c)
  {
    forall i: nat ensures VersionWordAt(s, i) <==> ReadsVersion(s, i) {
      ReadsIsText(s, i, "Version");
      ReadsIsText(s, i, "version");
    }
    forall j: nat | j <= |s| ensures SemverEnd(s, j).Some? <==> exists c: nat :: Dotted(s, j, c) {
      DottedIff(s, j);
    }
    if i: nat, j: nat, c: nat :| i + 7 <= j && ReadsVersion(s, i) && Dotted(s, j, c) {
      assert j <= |s|;
      assert SemverEnd(s, j).Some?;
    }
  }

  lemma MarkerIff(s: string)
    ensures HasMarker(s) <==> exists i: nat, c: nat :: Bracketed(s, i, c)
  {
    if i: nat :| i <= |s| && MarkerEnd(s, i).Some? {
      MatchedIsBracketed(s, i);
    }
    if i: nat, c: nat :| Bracketed(s, i, c) {
      BracketedMatches(s, i, c);
    }
  }

  lemma ReadsOne(s: string, i: nat, c: char)
    requires i < |s| && s[i] == c
    ensures Reads(s, i, [c])
  {
  }

  lemma ReadsTwo(s: string, i: nat, c: char, d: char)
    requires i + 1 < |s| && s[i] == c && s[i + 1] == d
    ensures Reads(s, i, [c, d])
  {
  }

  lemma MarkerCore(s: string, i: nat)
    requires i <= |s| && MarkerEnd(s, i).Some?
    ensures var e := MarkerEnd(s, i).value - 1;
            && i + 2 <= |s| && s[i] == '(' && s[i + 1] == 'v' && e < |s| && s[e] == ')'
            && SemverEnd(s, i + 2) == Some(e)
  {
  }

  lemma BracketedFrom(s: string, i: nat, e: nat)
    requires i + 2 <= |s| && s[i] == '(' && s[i + 1] == 'v' && e < |s| && s[e] == ')' && SemverEnd(s, i + 2) == Some(e)
    ensures Bracketed(s, i, e)
  {
    ReadsTwo(s, i, '(', 'v');
    ReadsOne(s, e, ')');
    assert "(v" == ['(', 'v'] && ")" == [')'];
    DottedIff(s, i + 2);
  }

  lemma MatchedIsBracketed(s: string, i: nat)
    requires i <= |s| && MarkerEnd(s, i).Some?
    ensures Bracketed(s, i, MarkerEnd(s, i).value - 1)
  {
    MarkerCore(s, i);
    BracketedFrom(s, i, MarkerEnd(s, i).value - 1);
  }

  lemma BracketedMatches(s: string, i: nat, c: nat)
    requires Bracketed(s, i, c)
    ensures i <= |s| && MarkerEnd(s, i).Some?
  {
    BracketedChars(s, i, c);
    DottedMatches(s, i + 2, c);
    MarkerFrom(s, i, c);
  }

  lemma BracketedChars(s: string, i: nat, c: nat)
    requires Bracketed(s, i, c)
    ensures i + 2 <= |s| && s[i] == '(' && s[i + 1] == 'v' && c < |s| && s[c] == ')'
  {
    ReadsIsText(s, i, "(v");
    CharAt(s, i, "(v", 0);
    CharAt(s, i, "(v", 1);
    ReadsIsText(s, c, ")");
    CharAt(s, c, ")", 0);
  }

  lemma MarkerFrom(s: string, i: nat, c: nat)
    requires i + 2 <= |s| && s[i] == '(' && s[i + 1] == 'v' && c < |s| && s[c] == ')' && SemverEnd(s, i + 2) == Some(c)
    ensures MarkerEnd(s, i).Some?
  {
  }

  /** A line is substantive exactly when it is not blank and spells no stamp. */
  lemma SubstantiveIff(line: string)
    ensures Substantive(line) <==> Telling(line)
  {
    StripKeepsStampLike(line);
    MacroNameIff(line);
    VersionStampIff(line);
    MarkerIff(line);
  }

  /** The report of a diff goes edit by edit and in order; a binary difference has none. */
  lemma ReportOfParts(a: seq<Edit>, b: seq<Edit>)
    ensures SubstantiveLines(Binary) == [] && SubstantiveLines(Lines([])) == []
    ensures SubstantiveLines(Lines(a + b)) == SubstantiveLines(Lines(a)) + SubstantiveLines(Lines(b))
  {
    CollectConcat(ReportOf, a, b);
  }

  /** The report of one edit, in characters: an inserted or deleted telling line with its sign,
      unless it begins with ++ or -- behind that sign. */
  lemma ReportOfEdit(line: string)
    ensures SubstantiveLines(Lines([Keep(line)])) == []
    ensures SubstantiveLines(Lines([Insert(line)])) == if Telling(line) && !Reads(line, 0, "++") then ["+" + line] else []
    ensures SubstantiveLines(Lines([Delete(line)])) == if Telling(line) && !Reads(line, 0, "--") then ["-" + line] else []
  {
    OneReported(Keep(line));
    OneReported(Insert(line));
    OneReported(Delete(line));
    ReadsIsText(line, 0, "++");
    ReadsIsText(line, 0, "--");
  }

  lemma OneReported(e: Edit)
    ensures SubstantiveLines(Lines([e]))
            == if !e.Keep? && Telling(e.line) && !(if e.Insert? then TextAt(e.line, 0, "++") else TextAt(e.line, 0, "--"))
               then [Printed(e)] else []
  {
    CollectOne(ReportOf, e);
    ReportedIff(e);
    SubstantiveIff(e.line);
  }

  lemma {:induction false} CollectConcat<T, U>(f: T -> seq<U>, a: seq<T>, b: seq<T>)
    ensures Collect(f, a + b) == Collect(f, a) + Collect(f, b)
  {
    if a == [] {
      assert a + b == b;
    } else {
      assert (a + b)[1..] == a[1..] + b;
      CollectConcat(f, a[1..], b);
    }
  }
}

/** scripts/sync_branch.py: merging a branch, resolving version-stamp conflicts on its own.

    Git is a set of given trees: the merge base, our HEAD, the incoming ref, and what
    `git merge --no-commit` leaves in the working tree together with the list of
    conflicting paths. The script itself is modelled step by step.
 */
module SyncBranch {
  import opened Options
  import opened Sequences
  import opened Stamps
  import opened Diffs
  import opened VersionSync

  const TOML := Path("python", "pyproject.toml")
  const CMAKE := Path("", "CMakeLists.txt")
  const LLM := Path("", "llm.txt")
  const LLM_FULL := Path("", "llm_full.txt")

  const GENERATED: seq<Path> := [LLM, LLM_FULL]

  predicate Generated(p: Path) { p in GENERATED }

  function TextOf(t: Tree, p: Path): seq<string> { if p in t then t[p] else [] }

  /* ---- partition_conflicts ---- */

  function DiffOf(diffs: map<Path, Diff>, p: Path): Diff { if p in diffs then diffs[p] else Lines([]) }

  predicate Blocks(diffs: map<Path, Diff>, p: Path) {
    !Generated(p) && SubstantiveLines(DiffOf(diffs, p)) != []
  }

  /** The paths that block are exactly those listed as blocking, with the lines that make
      them block; the others are resolvable. */
  ghost predicate Partition(paths: seq<Path>, diffs: map<Path, Diff>,
                            resolvable: seq<Path>, blocking: seq<(Path, seq<string>)>) {
    && (forall p :: p in resolvable <==> p in paths && !Blocks(diffs, p))
    && (forall b :: b in blocking ==> b.0 in paths && Blocks(diffs, b.0) && b.1 == SubstantiveLines(DiffOf(diffs, b.0)))
    && forall p :: p in paths && Blocks(diffs, p) ==> (p, SubstantiveLines(DiffOf(diffs, p))) in blocking
  }

  lemma PartitionNext(paths: seq<Path>, diffs: map<Path, Diff>,
                      resolvable: seq<Path>, blocking: seq<(Path, seq<string>)>, p: Path)
    requires Partition(paths, diffs, resolvable, blocking)
    ensures if Blocks(diffs, p) then Partition(paths + [p], diffs, resolvable, blocking + [(p, SubstantiveLines(DiffOf(diffs, p)))])
            else Partition(paths + [p], diffs, resolvable + [p], blocking)
  {
  }

  method PartitionConflicts(paths: seq<Path>, diffs: map<Path, Diff>)
    returns (resolvable: seq<Path>, blocking: seq<(Path, seq<string>)>)
    ensures Partition(paths, diffs, resolvable, blocking)
    ensures blocking == [] <==> forall p :: p in paths ==> !Blocks(diffs, p)
  {
    resolvable, blocking := [], [];
    for n := 0 to |paths|
      invariant Partition(paths[..n], diffs, resolvable, blocking)
    {
      var path := paths[n];
      PartitionNext(paths[..n], diffs, resolvable, blocking, path);
      assert paths[..n + 1] == paths[..n] + [path];
      if Generated(path) {
        resolvable := resolvable + [path];
        continue;
      }
      var lost := SubstantiveChanges(DiffOf(diffs, path));
      if lost != [] {
        blocking := blocking + [(path, lost)];
      } else {
        resolvable := resolvable + [path];
      }
    }
    assert paths[..|paths|] == paths;
    BlockingIff(paths, diffs, resolvable, blocking);
  }

  lemma BlockingIff(paths: seq<Path>, diffs: map<Path, Diff>, resolvable: seq<Path>, blocking: seq<(Path, seq<string>)>)
    requires Partition(paths, diffs, resolvable, blocking)
    ensures blocking == [] <==> forall p :: p in paths ==> !Blocks(diffs, p)
  {
    assert blocking != [] ==> blocking[0] in blocking;
  }

  /* ---- The machine sources ---- */

  /** One whole-line pattern: opening, a non-empty quoted text, closing. */
  datatype Target = Target(path: Path, opening: string, closing: string)

  const MACRO_NAME := "LIBEMBEDDING_VERSION"

  const TARGETS: seq<Target> := [
    Target(TOML, "version = " + "\"", "\""),
    Target(CMAKE, "set(" + MACRO_NAME + " \"", "\")"),
    Target(CONFIG, "#define " + MACRO_NAME + "_STRING \"", "\"")]

  predicate NoQuote(s: string) { forall k :: 0 <= k < |s| ==> s[k] != '"' }

  predicate MachineLine(t: Target, line: string) {
    && |t.opening| + |t.closing| < |line|
    && TextAt(line, 0, t.opening)
    && TextAt(line, |line| - |t.closing|, t.closing)
    && NoQuote(line[|t.opening|..|line| - |t.closing|])
  }

  function StampedLine(t: Target, version: string): string { t.opening + version + t.closing }

  /** Index of the first line the pattern matches, or the number of lines. */
  function FirstMachineLine(t: Target, text: seq<string>): (k: nat)
    ensures k <= |text|
    ensures k < |text| ==> MachineLine(t, text[k])
    ensures forall j :: 0 <= j < k ==> !MachineLine(t, text[j])
  {
    if text == [] || MachineLine(t, text[0]) then 0
    else
      var k := 1 + FirstMachineLine(t, text[1..]);
      assert forall j :: 1 <= j < |text| ==> text[j] == text[1..][j - 1];
      k
  }

  /** The text with its first machine line replaced; unchanged if there is none. */
  function StampMachineText(t: Target, text: seq<string>, version: string): (r: seq<string>)
    ensures |r| == |text|
  {
    var k := FirstMachineLine(t, text);
    if k < |text| then text[k := StampedLine(t, version)] else text
  }

  predicate SourcePresent(files: Tree, t: Target) {
    t.path in files && FirstMachineLine(t, files[t.path]) < |files[t.path]|
  }

  /** The tree after the first n machine sources have been stamped. */
  function MachineStamped(files: Tree, n: nat, version: string): (r: Tree)
    requires n <= |TARGETS|
    ensures r.Keys == files.Keys
  {
    if n == 0 then files
    else
      var before := MachineStamped(files, n - 1, version);
      var t := TARGETS[n - 1];
      if t.path in before then before[t.path := StampMachineText(t, before[t.path], version)] else before
  }

  lemma {:induction false} StampedElsewhere(files: Tree, n: nat, version: string, p: Path)
    requires n <= |TARGETS| && p in files && forall m :: 0 <= m < n ==> TARGETS[m].path != p
    ensures MachineStamped(files, n, version)[p] == files[p]
  {
    if n > 0 {
      StampedElsewhere(files, n - 1, version, p);
    }
  }

  lemma {:induction false} StampedAt(files: Tree, n: nat, m: nat, version: string)
    requires m < n <= |TARGETS| && TARGETS[m].path in files
    ensures MachineStamped(files, n, version)[TARGETS[m].path] == StampMachineText(TARGETS[m], files[TARGETS[m].path], version)
  {
    TargetsDistinct();
    if m == n - 1 {
      StampedElsewhere(files, m, version, TARGETS[m].path);
    } else {
      StampedAt(files, n - 1, m, version);
    }
  }

  /* ---- The canonical version, in its two readings ---- */

  /** canonical_version: the first line `version = "..."`, anything quoted. */
  function QuotedVersion(line: string): Option<string> {
    var opening := TARGETS[0].opening;
    if TextAt(line, 0, opening) && QuoteEnd(line, |opening|) < |line| && QuoteEnd(line, |opening|) > |opening|
    then Some(line[|opening|..QuoteEnd(line, |opening|)])
    else None
  }

  function QuoteEnd(s: string, i: nat): (e: nat)
    requires i <= |s|
    ensures i <= e <= |s| && (forall k :: i <= k < e ==> s[k] != '"') && (e < |s| ==> s[e] == '"')
    decreases |s| - i
  {
    if i == |s| || s[i] == '"' then i else QuoteEnd(s, i + 1)
  }

  function CanonicalVersion(text: seq<string>): Option<string> {
    if text == [] then None
    else if QuotedVersion(text[0]).Some? then QuotedVersion(text[0])
    else CanonicalVersion(text[1..])
  }

  /** read_canonical_version of sync_version.py: version, =, a quoted X.Y.Z, loosely spaced. */
  function LooseVersion(line: string): Option<Version> {
    QuotedAt(line, PrefixEnd(Lit("version", Blank0(Lit("=", Blank0(Core)))), line, 0))
  }

  /** The X.Y.Z between quotes at a position, if there is a position. */
  function QuotedAt(line: string, start: Option<nat>): Option<Version>
    requires start.Some? ==> start.value <= |line|
  {
    match start
    case None => None
    case Some(n) =>
      if n < |line| && IsQuote(line[n]) then
        match SemverEnd(line, n + 1)
        case None => None
        case Some(e) => if e < |line| && IsQuote(line[e]) then VersionAt(line, n + 1) else None
      else None
  }

  predicate IsQuote(c: char) { c == '"' || c == '\'' }

  function FirstLoose(text: seq<string>): (k: nat)
    ensures k <= |text|
    ensures k < |text| ==> LooseVersion(text[k]).Some?
    ensures forall j :: 0 <= j < k ==> LooseVersion(text[j]).None?
  {
    if text == [] || LooseVersion(text[0]).Some? then 0
    else
      var k := 1 + FirstLoose(text[1..]);
      assert forall j :: 1 <= j < |text| ==> text[j] == text[1..][j - 1];
      k
  }

  function ReadCanonical(text: seq<string>): (r: Option<Version>)
    ensures r.Some? ==> r.value.Valid()
  {
    var k := FirstLoose(text);
    if k < |text| then LooseVersion(text[k]) else None
  }

  /* ---- Conflict markers ---- */

  /** Seven < or seven >, at the end of the line or before a space. */
  predicate IsMarkerLine(line: string) {
    && |line| >= 7 && (line[0] == '<' || line[0] == '>') && (forall k :: 0 <= k < 7 ==> line[k] == line[0])
    && (|line| == 7 || line[7] == ' ')
  }

  /** The pathspec leaves out this directory and everything below it. */
  predicate ThirdParty(p: Path) { p.dir == "third_party" || TextAt(p.dir, 0, "third_party/") }

  predicate Marked(text: seq<string>) { exists k :: 0 <= k < |text| && IsMarkerLine(text[k]) }

  predicate HasConflictMarkers(files: Tree) {
    exists p :: p in files && !ThirdParty(p) && Marked(files[p])
  }

  /* ---- The run ---- */

  datatype Inputs = Inputs(
    base: Tree, ours: Tree, theirs: Tree,
    alreadyIntegrated: bool,
    mergeSucceeds: bool, merged: Tree, conflicts: seq<Path>,
    diffs: map<Path, Diff>,
    generatorExists: bool, grepWorks: bool)

  /** The diffs are what git diff base ref prints for the conflicting paths. */
  ghost predicate Consistent(i: Inputs) {
    forall p :: p in i.conflicts ==>
      p in i.diffs
      && (i.diffs[p].Lines? ==> OldSide(i.diffs[p].script) == TextOf(i.base, p)
                                && NewSide(i.diffs[p].script) == TextOf(i.theirs, p))
  }

  datatype Outcome = AlreadyIntegrated | Failed | Aborted | DryRun | Empty | Committed

  /** generate_llm_docs.py: rewrites the two generated files from the tree, or fails. */
  type Generator = Tree -> Option<(seq<string>, seq<string>)>

  function Resolved(i: Inputs, p: Path): Option<seq<string>> {
    if Generated(p) then (if p in i.theirs then Some(i.theirs[p]) else None)
    else if p in i.ours then Some(i.ours[p]) else None
  }

  /** run_script("sync_version.py"): reads the version back and syncs; None if it exits with an error. */
  function SyncRun(files: Tree): Option<Tree> {
    match ReadCanonical(TextOf(files, TOML))
    case None => None
    case Some(v) => if AnyManaged(files) then Some(SyncedTree(files, |RULES|, v)) else None
  }

  /** run_script("sync_version.py", "--check") */
  predicate CheckRun(files: Tree) {
    match ReadCanonical(TextOf(files, TOML))
    case None => false
    case Some(v) => AnyManaged(files) && TreeInSync(files, v)
  }

  /** A stage of the run either passes its tree on or stops the run, leaving this tree. */
  datatype Stage = Go(tree: Tree) | Stop(tree: Tree)

  /** git checkout --theirs of one generated file. */
  function TheirsTaken(i: Inputs, paths: set<Path>, p: Path, s: Stage): Stage {
    match s
    case Stop(_) => s
    case Go(t) => if p !in paths then s else if p in i.theirs then Go(t[p := i.theirs[p]]) else Stop(t)
  }

  function PathSet(paths: seq<Path>): set<Path> { set p | p in paths }

  function Mine(paths: set<Path>): set<Path> { set p | p in paths && !Generated(p) }

  function Overlaid(t: Tree, side: Tree, paths: set<Path>): Tree
    requires paths <= side.Keys
  {
    t + map p | p in paths :: side[p]
  }

  /** One git checkout --ours of all other paths, which does nothing when one of them has no
      such side, and then the generated files one by one. */
  function SidesTaken(i: Inputs, paths: set<Path>, t: Tree): Stage {
    if Mine(paths) <= i.ours.Keys then
      TheirsTaken(i, paths, LLM_FULL, TheirsTaken(i, paths, LLM, Go(Overlaid(t, i.ours, Mine(paths)))))
    else Stop(t)
  }

  /** How many of the machine sources have their line, up to the first that has not. */
  function SourcesPresent(files: Tree, n: nat): (k: nat)
    requires n <= |TARGETS|
    ensures n <= k <= |TARGETS| && (forall m :: n <= m < k ==> SourcePresent(files, TARGETS[m]))
    ensures k < |TARGETS| ==> !SourcePresent(files, TARGETS[k])
    decreases |TARGETS| - n
  {
    if n == |TARGETS| || !SourcePresent(files, TARGETS[n]) then n else SourcesPresent(files, n + 1)
  }

  function Stamped(files: Tree, version: string): Stage {
    var n := SourcesPresent(files, 0);
    var t := MachineStamped(files, n, version);
    if n == |TARGETS| then Go(t) else Stop(t)
  }

  function Synced(files: Tree): Stage {
    match SyncRun(files)
    case None => Stop(files)
    case Some(t) => Go(t)
  }

  function Regenerated(i: Inputs, generate: Generator, files: Tree): Stage {
    if !i.generatorExists then Go(files)
    else
      match generate(files)
      case None => Stop(files)
      case Some(docs) => Go(files[LLM := docs.0][LLM_FULL := docs.1])
  }

  function MarkersSought(i: Inputs, files: Tree): Stage {
    if i.grepWorks && HasConflictMarkers(files) then Stop(files) else Go(files)
  }

  /** From the resolved conflicts to what would be committed. The last --check has no place
      here: it never stops a run (FinalCheckPasses). */
  function Prepared(i: Inputs, generate: Generator, settled: Tree, version: string): Stage {
    match Stamped(settled, version)
    case Stop(t) => Stop(t)
    case Go(stamped) => Published(i, generate, stamped)
  }

  function Published(i: Inputs, generate: Generator, stamped: Tree): Stage {
    match Synced(stamped)
    case Stop(t) => Stop(t)
    case Go(synced) =>
      match Regenerated(i, generate, synced)
      case Stop(t) => Stop(t)
      case Go(t) => MarkersSought(i, t)
  }

  datatype End = End(outcome: Outcome, tree: Tree, merging: bool)

  function Concluded(i: Inputs, s: Stage): End {
    match s
    case Stop(t) => End(Failed, t, true)
    case Go(t) => if t == i.ours then End(Empty, t, false) else End(Committed, t, false)
  }

  predicate AnyBlocks(i: Inputs) { exists p :: p in i.conflicts && Blocks(i.diffs, p) }

  /** How a run ends: its outcome, the working tree, and whether a merge is left open. */
  function Expected(i: Inputs, generate: Generator, dryRun: bool): End {
    match CanonicalVersion(TextOf(i.theirs, TOML))
    case None => End(Failed, i.ours, false)
    case Some(version) =>
      if i.alreadyIntegrated then End(AlreadyIntegrated, i.ours, false)
      else if !i.mergeSucceeds && i.conflicts == [] then End(Failed, i.ours, false)
      else Merging(i, generate, dryRun, version)
  }

  function Merging(i: Inputs, generate: Generator, dryRun: bool, version: string): End {
    if AnyBlocks(i) then End(Aborted, i.ours, false) else Resolving(i, generate, dryRun, version)
  }

  function Resolving(i: Inputs, generate: Generator, dryRun: bool, version: string): End {
    match SidesTaken(i, PathSet(i.conflicts), i.merged)
    case Stop(t) => End(Failed, t, true)
    case Go(settled) =>
      if dryRun then End(DryRun, settled, true) else Concluded(i, Prepared(i, generate, settled, version))
  }

  /* ---- The outcomes in terms of the inputs ---- */

  /** A version was read, the ref is not integrated yet, and git has begun to merge. */
  predicate Begun(i: Inputs) {
    CanonicalVersion(TextOf(i.theirs, TOML)).Some? && !i.alreadyIntegrated && (i.mergeSucceeds || i.conflicts != [])
  }

  /** On some conflict outside the generated files the incoming side changed reported lines. */
  ghost predicate NeedsDecision(i: Inputs) {
    exists p :: p in i.conflicts && p != Path("", "llm.txt") && p != Path("", "llm_full.txt")
                && SubstantiveLines(if p in i.diffs then i.diffs[p] else Lines([])) != []
  }

  /** Every conflict has the side it is resolved to: the incoming one for a generated file, ours
      for the others. */
  ghost predicate SidesPresent(i: Inputs) {
    forall p :: p in i.conflicts ==>
      if p == Path("", "llm.txt") || p == Path("", "llm_full.txt") then p in i.theirs else p in i.ours
  }

  /** The merged tree with every conflict on that side. */
  ghost predicate SidesChosen(i: Inputs, t: Tree) {
    && t.Keys == i.merged.Keys + PathSet(i.conflicts)
    && forall p :: p in t ==>
         if p !in i.conflicts then p in i.merged && t[p] == i.merged[p]
         else if p == Path("", "llm.txt") || p == Path("", "llm_full.txt") then p in i.theirs && t[p] == i.theirs[p]
         else p in i.ours && t[p] == i.ours[p]
  }

  lemma GeneratedAre(p: Path)
    ensures Generated(p) <==> p == Path("", "llm.txt") || p == Path("", "llm_full.txt")
  {
  }

  lemma BlocksAre(i: Inputs)
    ensures AnyBlocks(i) <==> NeedsDecision(i)
  {
    forall p ensures Blocks(i.diffs, p) <==>
                       p != Path("", "llm.txt") && p != Path("", "llm_full.txt")
                       && SubstantiveLines(if p in i.diffs then i.diffs[p] else Lines([])) != []
    {
      GeneratedAre(p);
    }
  }

  lemma SidesAre(i: Inputs)
    ensures var s := SidesTaken(i, PathSet(i.conflicts), i.merged);
            && (s.Go? <==> SidesPresent(i)) && (s.Go? ==> SidesChosen(i, s.tree))
  {
    SidesSettle(i);
    forall p ensures Generated(p) <==> p == Path("", "llm.txt") || p == Path("", "llm_full.txt") {
      GeneratedAre(p);
    }
  }

  /** What stops a run that has settled its conflicts (see RunStopsIff). */
  ghost predicate Obstructed(i: Inputs, generate: Generator, version: string) {
    || AnySourceMissing(i) || VersionUnreadable(i, version)
    || Regenerated(i, generate, BeforeDocs(i, version)).Stop?
    || (i.grepWorks && MarkersLeft(i, Regenerated(i, generate, BeforeDocs(i, version)).tree))
  }

  /** The run ends in one of six ways, each under a condition of its own. */
  ghost predicate EndsAs(i: Inputs, generate: Generator, dryRun: bool, outcome: Outcome) {
    var version := CanonicalVersion(TextOf(i.theirs, TOML));
    && (outcome.AlreadyIntegrated? <==> version.Some? && i.alreadyIntegrated)
    && (outcome.Aborted? <==> Begun(i) && NeedsDecision(i))
    && (outcome.DryRun? <==> Begun(i) && !NeedsDecision(i) && SidesPresent(i) && dryRun)
    && (outcome.Empty? || outcome.Committed? <==>
          Begun(i) && !NeedsDecision(i) && SidesPresent(i) && !dryRun && !Obstructed(i, generate, version.value))
  }

  /** The state in which each outcome leaves the repository. */
  ghost predicate LeftAs(i: Inputs, outcome: Outcome, t: Tree, merging: bool) {
    && (outcome.AlreadyIntegrated? || outcome.Aborted? || outcome.Empty? ==> t == i.ours && !merging)
    && (outcome.DryRun? ==> SidesChosen(i, t) && merging)
    && (outcome.Committed? ==> t != i.ours && !merging)
    && (outcome.Failed? ==> if Begun(i) then merging else t == i.ours && !merging)
  }

  lemma EndIs(i: Inputs, generate: Generator, dryRun: bool)
    ensures EndsAs(i, generate, dryRun, Expected(i, generate, dryRun).outcome)
    ensures LeftAs(i, Expected(i, generate, dryRun).outcome, Expected(i, generate, dryRun).tree, Expected(i, generate, dryRun).merging)
  {
    BlocksAre(i);
    SidesAre(i);
    if Begun(i) && !NeedsDecision(i) && SidesPresent(i) && !dryRun {
      PreparedUnless(i, generate, CanonicalVersion(TextOf(i.theirs, TOML)).value);
    }
  }

  lemma PreparedUnless(i: Inputs, generate: Generator, version: string)
    requires SidesPresent(i)
    ensures Prepared(i, generate, SettledTree(i), version).Go? <==> !Obstructed(i, generate, version)
  {
    SidesAre(i);
    SidesSettle(i);
    PreparedIff(i, generate, SettledTree(i), version);
    StampedIff(i, SettledTree(i), version);
    if !AnySourceMissing(i) {
      SyncedIff(i, SettledTree(i), version);
      if !VersionUnreadable(i, version) && Regenerated(i, generate, BeforeDocs(i, version)).Go? {
        MarkersLeftIff(i, generate, version);
      }
    }
  }

  ghost predicate ConflictsSettled(i: Inputs, files: Tree) {
    && (forall p :: p in i.conflicts ==> Resolved(i, p).Some? && p in files && files[p] == Resolved(i, p).value)
    && (forall p :: p in i.merged && p !in i.conflicts ==> p in files && files[p] == i.merged[p])
    && (forall p :: p in files ==> p in i.merged || p in i.conflicts)
  }

  /** The text of a path once the conflicts are resolved and before anything is stamped. */
  function Settled(i: Inputs, p: Path): seq<string> {
    if p in i.conflicts then (match Resolved(i, p) case None => [] case Some(text) => text) else TextOf(i.merged, p)
  }

  /** The only line whose stamping could show up as a substantive change is the version
      line of pyproject.toml: it counts as a stamp only if what it quotes looks like one. */
  predicate TomlLineIsStamp(i: Inputs, version: string) {
    var text := Settled(i, TOML);
    var k := FirstMachineLine(TARGETS[0], text);
    k < |text| && !Substantive(text[k]) && !Substantive(StampedLine(TARGETS[0], version))
  }

  /** The file of the n-th machine source is the settled text with its version line
      replaced and, where a rule manages the file as well, the stamps in sync. */
  ghost predicate SourceStamped(i: Inputs, t: Tree, n: nat, version: string, read: Version)
    requires n < |TARGETS|
  {
    var source := TARGETS[n];
    && FirstMachineLine(source, Settled(i, source.path)) < |Settled(i, source.path)|
    && source.path in t
    && t[source.path] == SyncText(source.path, |RULES|, StampMachineText(source, Settled(i, source.path), version), read)
  }

  /** What holds of every tree that the script commits: no conflict marker, all three
      machine sources stamped with the version of the incoming ref, all other stamps in
      sync with the version read back from pyproject.toml, and every resolved conflict
      keeping our lines, up to blank and stamp-like ones. */
  ghost predicate CommitIsSound(i: Inputs, t: Tree) {
    var version := CanonicalVersion(TextOf(i.theirs, TOML));
    && version.Some?
    && (i.grepWorks ==> !HasConflictMarkers(t))
    && TextOf(t, TOML) == StampMachineText(TARGETS[0], Settled(i, TOML), version.value)
    && ReadCanonical(TextOf(t, TOML)).Some?
    && TreeInSync(t, ReadCanonical(TextOf(t, TOML)).value)
    && (forall n :: 0 <= n < |TARGETS| ==> SourceStamped(i, t, n, version.value, ReadCanonical(TextOf(t, TOML)).value))
    && forall p :: p in i.conflicts && !Generated(p) ==>
         && p in i.ours && p in t
         && (p != TOML || TomlLineIsStamp(i, version.value) ==> Significant(t[p]) == Significant(i.ours[p]))
  }

  predicate IsSource(p: Path) {
    p == Path("python", "pyproject.toml") || p == Path("", "CMakeLists.txt") || p == Path("include/libembedding", "config.h")
  }

  /** What a committed tree holds beside the generated files and the machine sources: the merged
      files, conflicts on our side, all synced to the version read back. */
  ghost predicate OthersSynced(i: Inputs, t: Tree) {
    forall p :: p != Path("", "llm.txt") && p != Path("", "llm_full.txt") ==>
      && (p in t <==> p in i.merged || p in i.conflicts)
      && (p in t && !IsSource(p) ==>
            && (p in i.conflicts ==> p in i.ours)
            && ReadCanonical(TextOf(t, Path("python", "pyproject.toml"))).Some?
            && t[p] == SyncText(p, |RULES|, if p in i.conflicts then i.ours[p] else i.merged[p],
                                ReadCanonical(TextOf(t, Path("python", "pyproject.toml"))).value))
  }

  class Checkout {
    var tree: Tree
    var merging: bool
    var commits: seq<Tree>

    constructor (head: Tree)
      ensures tree == head && !merging && commits == []
    {
      tree, merging, commits := head, false, [];
    }

    /** git checkout --ours of what is ours to keep, then --theirs of the generated files;
        fails on a path that the wanted side has deleted. */
    method TakeSides(i: Inputs, resolvable: seq<Path>) returns (ok: bool)
      modifies this`tree
      ensures Ended(ok) == SidesTaken(i, PathSet(resolvable), old(tree))
    {
      var paths := PathSet(resolvable);
      if !(Mine(paths) <= i.ours.Keys) {
        return false;
      }
      tree := Overlaid(tree, i.ours, Mine(paths));
      ok := TakeTheirs(i, paths, LLM);
      if ok {
        ok := TakeTheirs(i, paths, LLM_FULL);
      }
    }

    /** One turn of the loop over the generated files. */
    method TakeTheirs(i: Inputs, paths: set<Path>, path: Path) returns (ok: bool)
      modifies this`tree
      ensures Ended(ok) == TheirsTaken(i, paths, path, Go(old(tree)))
    {
      if path in paths {
        if path !in i.theirs {
          return false;
        }
        tree := tree[path := i.theirs[path]];
      }
      return true;
    }

    /** What a step that reports ok or not has come to. */
    ghost function Ended(ok: bool): Stage
      reads this`tree
    {
      if ok then Go(tree) else Stop(tree)
    }

    /** stamp_machine_sources: stops at the first source without a matching line; the earlier
        ones have been written by then. */
    method StampMachineSources(version: string) returns (ok: bool)
      modifies this`tree
      ensures Ended(ok) == Stamped(old(tree), version)
    {
      ghost var before := tree;
      var sources := |TARGETS|;
      for n := 0 to sources
        invariant sources == |TARGETS| && tree == MachineStamped(before, n, version)
        invariant SourcesPresent(before, 0) == SourcesPresent(before, n)
      {
        ok := StampSource(n, version, before);
        if !ok {
          return;
        }
      }
      return true;
    }

    /** One turn of the loop: search, complain or replace. */
    method StampSource(n: nat, version: string, ghost before: Tree) returns (ok: bool)
      requires n < |TARGETS| && tree == MachineStamped(before, n, version)
      modifies this`tree
      ensures ok <==> SourcePresent(before, TARGETS[n])
      ensures ok ==> tree == MachineStamped(before, n + 1, version)
      ensures !ok ==> tree == old(tree)
    {
      var t := TARGETS[n];
      SourceUntouched(before, n, version);
      if !SourcePresent(tree, t) {
        return false;
      }
      tree := tree[t.path := StampMachineText(t, tree[t.path], version)];
      return true;
    }

    /** run_script("sync_version.py") */
    method SyncStamps() returns (ok: bool)
      modifies this`tree
      ensures Ended(ok) == Synced(old(tree))
    {
      var synced := SyncRun(tree);
      if synced.None? {
        return false;
      }
      tree := synced.value;
      return true;
    }

    /** run_script("generate_llm_docs.py"), if there is such a script. */
    method Regenerate(i: Inputs, generate: Generator) returns (ok: bool)
      modifies this`tree
      ensures Ended(ok) == Regenerated(i, generate, old(tree))
    {
      if i.generatorExists {
        var docs := generate(tree);
        if docs.None? {
          return false;
        }
        tree := tree[LLM := docs.value.0][LLM_FULL := docs.value.1];
      }
      return true;
    }

    /** From the stamped sources to the last check, which always passes. */
    method Publish(i: Inputs, generate: Generator) returns (ok: bool)
      modifies this`tree
      ensures Ended(ok) == Published(i, generate, old(tree))
      ensures ok ==> CheckRun(tree)
    {
      ghost var stamped := tree;
      ok := SyncStamps();
      if !ok {
        return;
      }
      ghost var synced := tree;
      ok := Regenerate(i, generate);
      if !ok {
        return;
      }
      if i.grepWorks && HasConflictMarkers(tree) {
        return false;
      }
      FinalCheckPasses(i, generate, stamped, synced, tree);
      return CheckRun(tree);
    }

    /** From the resolved conflicts to what is to be committed. */
    method Prepare(i: Inputs, version: string, generate: Generator) returns (ok: bool)
      modifies this`tree
      ensures Ended(ok) == Prepared(i, generate, old(tree), version)
    {
      ok := StampMachineSources(version);
      if ok {
        ok := Publish(i, generate);
      }
    }

    /** The commit, unless there is nothing to commit. */
    method Conclude(i: Inputs, version: string, generate: Generator) returns (outcome: Outcome)
      requires merging
      modifies this
      ensures End(outcome, tree, merging) == Concluded(i, Prepared(i, generate, old(tree), version))
      ensures commits == old(commits) + if outcome.Committed? then [tree] else []
    {
      var ok := Prepare(i, version, generate);
      if !ok {
        return Failed;
      }
      if tree == i.ours {
        merging := false;
        return Empty;
      }
      commits, merging := commits + [tree], false;
      return Committed;
    }

    /** main(), from the merge to the commit. A merge that git cannot start and one with a
        blocking conflict leave our tree as it was; any later failure leaves the merge open,
        with the tree as far as the run had come. */
    method Integrate(i: Inputs, generate: Generator, dryRun: bool) returns (outcome: Outcome)
      requires tree == i.ours && !merging
      modifies this
      ensures End(outcome, tree, merging) == Expected(i, generate, dryRun)
      ensures commits == old(commits) + if outcome.Committed? then [tree] else []
      // The same without the stages: when each outcome occurs, and what it leaves behind.
      ensures EndsAs(i, generate, dryRun, outcome) && LeftAs(i, outcome, tree, merging)
      ensures outcome.Committed? ==> CommitIsSound(i, tree) && OthersSynced(i, tree)
    {
      CommittedSoundly(i, generate, dryRun);
      CommittedOthers(i, generate, dryRun);
      EndIs(i, generate, dryRun);
      var version := CanonicalVersion(TextOf(i.theirs, TOML));
      if version.None? {
        return Failed;
      }
      if i.alreadyIntegrated {
        return AlreadyIntegrated;
      }
      if !i.mergeSucceeds && i.conflicts == [] {
        return Failed;
      }
      outcome := Merge(i, version.value, generate, dryRun);
    }

    /** Once git has begun the merge. */
    method Merge(i: Inputs, version: string, generate: Generator, dryRun: bool) returns (outcome: Outcome)
      modifies this
      ensures End(outcome, tree, merging) == Merging(i, generate, dryRun, version)
      ensures commits == old(commits) + if outcome.Committed? then [tree] else []
    {
      tree, merging := i.merged, true;
      var resolvable, blocking := PartitionConflicts(i.conflicts, i.diffs);
      if blocking != [] {
        tree, merging := i.ours, false;
        return Aborted;
      }
      assert PathSet(resolvable) == PathSet(i.conflicts);
      outcome := Resolve(i, resolvable, version, generate, dryRun);
    }

    /** When nothing blocks. */
    method Resolve(i: Inputs, resolvable: seq<Path>, version: string, generate: Generator, dryRun: bool)
      returns (outcome: Outcome)
      requires tree == i.merged && merging && PathSet(resolvable) == PathSet(i.conflicts)
      modifies this
      ensures End(outcome, tree, merging) == Resolving(i, generate, dryRun, version)
      ensures commits == old(commits) + if outcome.Committed? then [tree] else []
    {
      var taken := TakeSides(i, resolvable);
      if !taken {
        return Failed;
      }
      if dryRun {
        return DryRun;
      }
      outcome := Conclude(i, version, generate);
    }
  }

  /** The stages before the last check leave nothing for it to find: pyproject.toml and the
      generated files fall under no rule, and everything else has just been synced. */
  lemma FinalCheckPasses(i: Inputs, generate: Generator, stamped: Tree, synced: Tree, t: Tree)
    requires SyncRun(stamped) == Some(synced) && Regenerated(i, generate, synced) == Go(t)
    ensures CheckRun(t)
  {
    var v := ReadCanonical(TextOf(stamped, TOML)).value;
    TomlUnmanaged();
    if TOML in stamped {
      UnmanagedUnchanged(TOML, |RULES|, stamped[TOML], v);
    }
    var k, p :| 0 <= k < |RULES| && p in stamped && Manages(RULES[k], p);
    assert p in t;
    SyncedTreeIsInSync(stamped, v);
    GeneratedUnmanaged();
    forall q | q in t ensures InSync(q, t[q], v) {
      if Generated(q) {
        UnmanagedUnchanged(q, |RULES|, t[q], v);
      } else {
        assert t[q] == synced[q];
      }
    }
  }

  lemma GeneratedUnmanaged()
    ensures forall p, k :: Generated(p) && 0 <= k < |RULES| ==> !Manages(RULES[k], p)
  {
    assert |LLM.dir| == 0 && |"include/libembedding"| == 20 && |"python/src/libembedding"| == 23;
    assert |LLM.name| == 7 && |LLM_FULL.name| == 12 && |"AGENTS.md"| == 9;
  }

  /** Every conflict has the side it is resolved to, and then it is resolved to it. */
  lemma SidesSettle(i: Inputs)
    ensures var s := SidesTaken(i, PathSet(i.conflicts), i.merged);
            && (s.Go? <==> forall p :: p in i.conflicts ==> Resolved(i, p).Some?)
            && (s.Go? ==> ConflictsSettled(i, s.tree))
  {
  }

  lemma PreparedParts(i: Inputs, generate: Generator, settled: Tree, version: string, t: Tree)
    requires Prepared(i, generate, settled, version) == Go(t)
    ensures forall n :: 0 <= n < |TARGETS| ==> SourcePresent(settled, TARGETS[n])
    ensures var stamped := MachineStamped(settled, |TARGETS|, version);
            var synced := Synced(stamped).tree;
            SyncRun(stamped) == Some(synced) && Regenerated(i, generate, synced) == Go(t)
    ensures i.grepWorks ==> !HasConflictMarkers(t)
  {
  }

  lemma PreparedSoundly(i: Inputs, generate: Generator, settled: Tree, version: string, t: Tree)
    requires CanonicalVersion(TextOf(i.theirs, TOML)) == Some(version) && ConflictsSettled(i, settled)
    requires Prepared(i, generate, settled, version) == Go(t)
    ensures CommitIsSound(i, t)
  {
    var stamped := MachineStamped(settled, |TARGETS|, version);
    var synced := Synced(stamped).tree;
    PreparedParts(i, generate, settled, version, t);
    FinalCheckPasses(i, generate, stamped, synced, t);
    RegeneratedElsewhere(i, generate, synced, t);
    CommitBuiltSoundly(i, settled, version, synced, t);
  }

  lemma RegeneratedElsewhere(i: Inputs, generate: Generator, files: Tree, t: Tree)
    requires Regenerated(i, generate, files) == Go(t)
    ensures forall p :: p in files && !Generated(p) ==> p in t && t[p] == files[p]
    ensures forall p :: p in t && !Generated(p) ==> p in files
  {
  }

  /** What a run commits is sound. */
  lemma CommittedSoundly(i: Inputs, generate: Generator, dryRun: bool)
    ensures Expected(i, generate, dryRun).outcome.Committed? ==> CommitIsSound(i, Expected(i, generate, dryRun).tree)
  {
    if Expected(i, generate, dryRun).outcome.Committed? {
      SidesSettle(i);
      PreparedSoundly(i, generate, SettledTree(i), CanonicalVersion(TextOf(i.theirs, TOML)).value,
                      Expected(i, generate, dryRun).tree);
    }
  }

  function SettledTree(i: Inputs): Tree { SidesTaken(i, PathSet(i.conflicts), i.merged).tree }

  lemma CommittedOthers(i: Inputs, generate: Generator, dryRun: bool)
    ensures Expected(i, generate, dryRun).outcome.Committed? ==> OthersSynced(i, Expected(i, generate, dryRun).tree)
  {
    if Expected(i, generate, dryRun).outcome.Committed? {
      SidesSettle(i);
      PreparedOthers(i, generate, SettledTree(i), CanonicalVersion(TextOf(i.theirs, TOML)).value,
                     Expected(i, generate, dryRun).tree);
    }
  }

  lemma PreparedOthers(i: Inputs, generate: Generator, settled: Tree, version: string, t: Tree)
    requires ConflictsSettled(i, settled) && Prepared(i, generate, settled, version) == Go(t)
    ensures OthersSynced(i, t)
  {
    var stamped := MachineStamped(settled, |TARGETS|, version);
    var synced := Synced(stamped).tree;
    PreparedParts(i, generate, settled, version, t);
    RegeneratedElsewhere(i, generate, synced, t);
    VersionKept(stamped, synced, t);
    forall p | p != Path("", "llm.txt") && p != Path("", "llm_full.txt")
      ensures p in t <==> p in i.merged || p in i.conflicts
      ensures p in t && !IsSource(p) ==>
                && (p in i.conflicts ==> p in i.ours)
                && t[p] == SyncText(p, |RULES|, if p in i.conflicts then i.ours[p] else i.merged[p],
                                    ReadCanonical(TextOf(stamped, TOML)).value)
    {
      GeneratedAre(p);
      if p in t && !IsSource(p) {
        OtherStamped(settled, version, p);
      }
    }
  }

  lemma OtherStamped(settled: Tree, version: string, p: Path)
    requires p in settled && !IsSource(p)
    ensures MachineStamped(settled, |TARGETS|, version)[p] == settled[p]
  {
    TargetsDistinct();
    StampedElsewhere(settled, |TARGETS|, version, p);
  }

  lemma VersionKept(stamped: Tree, synced: Tree, t: Tree)
    requires SyncRun(stamped) == Some(synced)
    requires forall p :: p in synced && !Generated(p) ==> p in t && t[p] == synced[p]
    requires forall p :: p in t && !Generated(p) ==> p in synced
    ensures TextOf(t, TOML) == TextOf(stamped, TOML)
  {
    TomlUnmanaged();
    if TOML in stamped {
      UnmanagedUnchanged(TOML, |RULES|, stamped[TOML], ReadCanonical(TextOf(stamped, TOML)).value);
    }
  }

  /** The generator's two texts go where they belong, and nothing else changes. */
  lemma RegeneratedAre(i: Inputs, generate: Generator, files: Tree, p: Path)
    requires i.generatorExists && generate(files).Some?
    ensures Regenerated(i, generate, files).Go?
    ensures var t := Regenerated(i, generate, files).tree;
            && Path("", "llm.txt") in t && t[Path("", "llm.txt")] == generate(files).value.0
            && Path("", "llm_full.txt") in t && t[Path("", "llm_full.txt")] == generate(files).value.1
            && (p != Path("", "llm.txt") && p != Path("", "llm_full.txt") ==>
                  (p in t <==> p in files) && (p in t ==> t[p] == files[p]))
  {
    assert |LLM.name| == 7 && |LLM_FULL.name| == 12;
  }

  // A machine source is still as it was when its turn comes.
  lemma SourceUntouched(files: Tree, n: nat, version: string)
    requires n < |TARGETS|
    ensures SourcePresent(MachineStamped(files, n, version), TARGETS[n]) <==> SourcePresent(files, TARGETS[n])
  {
    TargetsDistinct();
    if TARGETS[n].path in files {
      StampedElsewhere(files, n, version, TARGETS[n].path);
    }
  }

  lemma TargetsDistinct()
    ensures forall m, n :: 0 <= m < n < |TARGETS| ==> TARGETS[m].path != TARGETS[n].path
    ensures |TARGETS| == 3
    ensures TARGETS[0].path == TOML && TARGETS[1].path == CMAKE && TARGETS[2].path == CONFIG
  {
    assert |TOML.dir| == 6 && |CMAKE.dir| == 0 && |CONFIG.dir| == 20;
  }

  /* ---- Stamping and syncing leave significant lines alone ---- */

  lemma TextWithin(s: string, i: nat, text: string, from: nat, sub: string)
    requires TextAt(s, i, text) && from + |sub| <= |text| && text[from..from + |sub|] == sub
    ensures TextAt(s, i + from, sub)
  {
    forall k | 0 <= k < |sub| ensures s[i + from + k] == sub[k] {
      assert s[i + (from + k)] == text[from + k] == text[from..from + |sub|][k];
    }
  }

  lemma LiteralThenBlanks(text: string, rest: Pattern, line: string, a: nat) returns (b: nat)
    requires a <= |line| && PrefixEnd(Lit(text, Blank0(rest)), line, a).Some?
    ensures b <= |line| && PrefixEnd(rest, line, b) == PrefixEnd(Lit(text, Blank0(rest)), line, a)
  {
    b := BlankEnd(line, a + |text|);
    assert PrefixEnd(Blank0(rest), line, a + |text|) == PrefixEnd(rest, line, b);
  }

  lemma HeaderLineStampLike(line: string)
    requires MatchLine(HEADER_RULE.pattern, Full, line).Some?
    ensures StampLike(line)
  {
    var a := BlankEnd(line, 0);
    var b := LiteralThenBlanks("*", Lit("Version:", Blank0(Core)), line, a);
    VersionLineStampLike(line, b);
  }

  lemma VersionLineStampLike(line: string, b: nat)
    requires b <= |line| && PrefixEnd(Lit("Version:", Blank0(Core)), line, b).Some?
    requires SemverEnd(line, PrefixEnd(Lit("Version:", Blank0(Core)), line, b).value).Some?
    ensures StampLike(line)
  {
    assert "Version:"[0..7] == "Version";
    TextWithin(line, b, "Version:", 0, "Version");
    assert PrefixEnd(Blank0(Core), line, b + 8).Some?;
    assert VersionWordAt(line, b);
  }

  lemma AgentsLineStampLike(line: string)
    requires MatchLine(AGENTS_RULE.pattern, Full, line).Some?
    ensures StampLike(line)
  {
    AgentsWord();
    WordInLiteral(AGENTS_RULE.pattern.text, line, 4);
  }

  lemma AgentsWord()
    ensures AGENTS_RULE.pattern == Lit(AGENTS_RULE.pattern.text, Core)
    ensures |AGENTS_RULE.pattern.text| >= 11 && AGENTS_RULE.pattern.text[4..4 + 7] == "Version"
  {
    assert |"> **Version courante** : "| == 25;
  }

  lemma WordInLiteral(text: string, line: string, i: nat)
    requires i + 7 <= |text| && text[i..i + 7] == "Version" && MatchLine(Lit(text, Core), Full, line).Some?
    ensures StampLike(line)
  {
    assert PrefixEnd(Core, line, |text|) == Some(|text|);
    TextWithin(line, 0, text, i, "Version");
    StampFromWord(line, i, |text|);
  }

  lemma StampFromWord(line: string, i: nat, j: nat)
    requires VersionWordAt(line, i) && i + 7 <= j <= |line| && SemverEnd(line, j).Some?
    ensures StampLike(line)
  {
  }

  lemma MacroLineStampLike(name: string, part: Part, line: string)
    requires MatchLine(MacroRule(name, part).pattern, part, line).Some?
    ensures StampLike(line)
  {
    LiteralAtPrefix("#define", "LIBEMBEDDING_VERSION_", name, line);
  }

  lemma LiteralAtPrefix(a: string, b: string, name: string, line: string)
    requires PrefixEnd(Lit(a, Blank1(Lit(b, Lit(name, Blank1(Core))))), line, 0).Some? && b == "LIBEMBEDDING_VERSION_"
    ensures HasMacroName(line)
  {
    var e := BlankEnd(line, |a|);
    assert PrefixEnd(Lit(b, Lit(name, Blank1(Core))), line, e).Some?;
    assert b[0..20] == "LIBEMBEDDING_VERSION";
    TextWithin(line, e, b, 0, "LIBEMBEDDING_VERSION");
  }

  /** Every line that a rule rewrites is stamp-like before and after: the diff of a sync is
      never a substantive change. */
  lemma RewrittenLinesAreStampLike(k: nat, line: string, v: Version)
    requires k < |RULES| && v.Valid() && ApplyLine(RULES[k], line, v) != line
    ensures !Substantive(line) && !Substantive(ApplyLine(RULES[k], line, v))
  {
    var t := ApplyLine(RULES[k], line, v);
    StripKeepsStampLike(line);
    StripKeepsStampLike(t);
    if k == 2 {
      MarkerRuleStampLike(line, v);
    } else {
      LineRuleStampLike(k, line, v);
    }
  }

  lemma MarkerRuleStampLike(line: string, v: Version)
    requires v.Valid() && ApplyLine(RULES[2], line, v) != line
    ensures StampLike(line) && StampLike(ApplyLine(RULES[2], line, v))
  {
    RewrittenMarkersStay(line, v);
  }

  lemma LineRuleStampLike(k: nat, line: string, v: Version)
    requires k < |RULES| && k != 2 && v.Valid() && ApplyLine(RULES[k], line, v) != line
    ensures StampLike(line) && StampLike(ApplyLine(RULES[k], line, v))
  {
    TableShape(k);
    RewrittenLineMatches(RULES[k].pattern, RULES[k].part, line, v);
    RuleLineStampLike(k, line);
    RuleLineStampLike(k, ApplyLine(RULES[k], line, v));
  }

  lemma RuleLineStampLike(k: nat, line: string)
    requires k < |RULES| && k != 2 && RULES[k].LineRule? && MatchLine(RULES[k].pattern, RULES[k].part, line).Some?
    ensures StampLike(line)
  {
    if k == 0 {
      HeaderLineStampLike(line);
    } else if k == 1 {
      VersionLineStampLike(line, 0);
    } else if k == 6 {
      AgentsLineStampLike(line);
    } else {
      MacroLineStampLike(if k == 3 then "MAJOR" else if k == 4 then "MINOR" else "PATCH", RULES[k].part, line);
    }
  }

  lemma {:induction false} SyncKeepsSubstantive(path: Path, k: nat, line: string, v: Version)
    requires k <= |RULES| && v.Valid()
    ensures SyncLine(path, k, line, v) == line || (!Substantive(line) && !Substantive(SyncLine(path, k, line, v)))
  {
    if k > 0 {
      SyncKeepsSubstantive(path, k - 1, line, v);
      var before := SyncLine(path, k - 1, line, v);
      if Manages(RULES[k - 1], path) && ApplyLine(RULES[k - 1], before, v) != before {
        RewrittenLinesAreStampLike(k - 1, before, v);
      }
    }
  }

  lemma {:induction false} SameSignificant(a: seq<string>, b: seq<string>)
    requires |a| == |b|
    requires forall i :: 0 <= i < |a| ==> a[i] == b[i] || (!Substantive(a[i]) && !Substantive(b[i]))
    ensures Significant(a) == Significant(b)
  {
    if a != [] {
      SameSignificant(a[1..], b[1..]);
    }
  }

  /** A sync leaves the substantive lines of every file as they are, in place. */
  lemma SyncKeepsSignificant(path: Path, text: seq<string>, v: Version)
    requires v.Valid()
    ensures Significant(SyncText(path, |RULES|, text, v)) == Significant(text)
  {
    forall i | 0 <= i < |text|
      ensures SyncText(path, |RULES|, text, v)[i] == text[i]
              || (!Substantive(text[i]) && !Substantive(SyncText(path, |RULES|, text, v)[i]))
    {
      SyncKeepsSubstantive(path, |RULES|, text[i], v);
    }
    SameSignificant(SyncText(path, |RULES|, text, v), text);
  }

  lemma MacroNameLine(line: string, a: string, c: string)
    requires TextAt(line, 0, a + MACRO_NAME + c)
    ensures !Substantive(line)
  {
    var text := a + MACRO_NAME + c;
    assert text[|a|..|a| + |MACRO_NAME|] == MACRO_NAME;
    TextWithin(line, 0, text, |a|, MACRO_NAME);
    assert HasMacroName(line);
    StripKeepsStampLike(line);
  }

  lemma StampedLineOpens(t: Target, version: string)
    ensures TextAt(StampedLine(t, version), 0, t.opening)
  {
  }

  // In CMakeLists.txt and config.h the machine line names LIBEMBEDDING_VERSION, so it is always a stamp.
  lemma MachineLinesAreStamps(n: nat, line: string, version: string)
    requires 1 <= n < |TARGETS| && MachineLine(TARGETS[n], line)
    ensures !Substantive(line) && !Substantive(StampedLine(TARGETS[n], version))
  {
    StampedLineOpens(TARGETS[n], version);
    if n == 1 {
      MacroNameLine(line, "set(", " \"");
      MacroNameLine(StampedLine(TARGETS[1], version), "set(", " \"");
    } else {
      MacroNameLine(line, "#define ", "_STRING \"");
      MacroNameLine(StampedLine(TARGETS[2], version), "#define ", "_STRING \"");
    }
  }

  lemma StampingKeepsSignificant(t: Target, text: seq<string>, version: string)
    requires var k := FirstMachineLine(t, text);
             k < |text| ==> !Substantive(text[k]) && !Substantive(StampedLine(t, version))
    ensures Significant(StampMachineText(t, text, version)) == Significant(text)
  {
    SameSignificant(StampMachineText(t, text, version), text);
  }

  lemma MachineStampedKeepsSignificant(files: Tree, p: Path, version: string)
    requires p in files
    requires p == TOML ==>
               var k := FirstMachineLine(TARGETS[0], files[p]);
               k < |files[p]| ==> !Substantive(files[p][k]) && !Substantive(StampedLine(TARGETS[0], version))
    ensures Significant(MachineStamped(files, |TARGETS|, version)[p]) == Significant(files[p])
  {
    TargetsDistinct();
    if p == TOML {
      StampedAt(files, |TARGETS|, 0, version);
      StampingKeepsSignificant(TARGETS[0], files[p], version);
    } else if p == CMAKE || p == CONFIG {
      var n := if p == CMAKE then 1 else 2;
      var k := FirstMachineLine(TARGETS[n], files[p]);
      if k < |files[p]| {
        MachineLinesAreStamps(n, files[p][k], version);
      }
      StampedAt(files, |TARGETS|, n, version);
      StampingKeepsSignificant(TARGETS[n], files[p], version);
    } else {
      StampedElsewhere(files, |TARGETS|, version, p);
    }
  }

  lemma TomlUnmanaged()
    ensures forall k :: 0 <= k < |RULES| ==> !Manages(RULES[k], TOML)
    ensures !Generated(TOML)
  {
    assert |TOML.dir| == 6 && |"include/libembedding"| == 20 && |"python/src/libembedding"| == 23;
  }

  lemma {:induction false} UnmanagedUnchanged(path: Path, k: nat, text: seq<string>, v: Version)
    requires k <= |RULES| && forall j :: 0 <= j < |RULES| ==> !Manages(RULES[j], path)
    ensures SyncText(path, k, text, v) == text
  {
    if k > 0 {
      UnmanagedUnchanged(path, k - 1, text, v);
      assert forall i :: 0 <= i < |text| ==> SyncText(path, k - 1, text, v)[i] == text[i];
    }
  }

  lemma SourceCommitted(i: Inputs, settled: Tree, version: string, read: Version, n: nat)
    requires ConflictsSettled(i, settled) && n < |TARGETS| && SourcePresent(settled, TARGETS[n])
    ensures var p := TARGETS[n].path;
            && !Generated(p) && settled[p] == Settled(i, p)
            && SyncText(p, |RULES|, MachineStamped(settled, |TARGETS|, version)[p], read)
               == SyncText(p, |RULES|, StampMachineText(TARGETS[n], Settled(i, p), version), read)
  {
    TargetsDistinct();
    TomlUnmanaged();
    StampedAt(settled, |TARGETS|, n, version);
  }

  lemma CommitBuiltSoundly(i: Inputs, settled: Tree, version: string, synced: Tree, t: Tree)
    requires CanonicalVersion(TextOf(i.theirs, TOML)) == Some(version) && ConflictsSettled(i, settled)
    requires forall n :: 0 <= n < |TARGETS| ==> SourcePresent(settled, TARGETS[n])
    requires SyncRun(MachineStamped(settled, |TARGETS|, version)) == Some(synced)
    requires forall p :: p in synced && !Generated(p) ==> p in t && t[p] == synced[p]
    requires i.grepWorks ==> !HasConflictMarkers(t)
    requires CheckRun(t)
    ensures CommitIsSound(i, t)
  {
    var stamped := MachineStamped(settled, |TARGETS|, version);
    var v := ReadCanonical(TextOf(stamped, TOML)).value;
    TomlUnmanaged();
    TargetsDistinct();
    StampedAt(settled, |TARGETS|, 0, version);
    UnmanagedUnchanged(TOML, |RULES|, stamped[TOML], v);
    forall n | 0 <= n < |TARGETS| ensures SourceStamped(i, t, n, version, v) {
      SourceCommitted(i, settled, version, v, n);
    }
    forall p | p in i.conflicts && !Generated(p)
      ensures p in i.ours && p in t
      ensures p != TOML || TomlLineIsStamp(i, version) ==> Significant(t[p]) == Significant(i.ours[p])
    {
      if p != TOML || TomlLineIsStamp(i, version) {
        SyncKeepsSignificant(p, stamped[p], v);
        MachineStampedKeepsSignificant(settled, p, version);
      }
    }
  }

  /* ---- Stamping and syncing neither leave nor remove a conflict marker ---- */

  function MarkerHead(line: string): nat { if |line| < 8 then |line| else 8 }

  lemma MarkerLineHead(s: string, t: string)
    requires IsMarkerLine(s) && MarkerHead(s) <= |t| && (|t| == 7 <==> |s| == 7)
    requires forall k :: 0 <= k < MarkerHead(s) ==> t[k] == s[k]
    ensures IsMarkerLine(t)
  {
  }

  lemma MarkerLineHasNoParen(s: string)
    requires IsMarkerLine(s)
    ensures forall k :: 0 <= k < MarkerHead(s) ==> s[k] != '('
  {
  }

  lemma RewritingKeepsMarkerLines(s: string, v: Version)
    ensures IsMarkerLine(s) <==> IsMarkerLine(RewriteMarkers(s, v))
  {
    var t := RewriteMarkers(s, v);
    if IsMarkerLine(s) {
      MarkerLineHasNoParen(s);
      HeadKept(s, v, MarkerHead(s));
      MarkerLineHead(s, t);
    }
    if IsMarkerLine(t) {
      var m := MarkerHead(t);
      MarkerLineHasNoParen(t);
      UnrewrittenStart(s, v, m);
      forall k | 0 <= k < m ensures s[k] == t[k] {
      }
      HeadKept(s, v, m);
      MarkerLineHead(t, s);
    }
  }

  lemma MatchedIsNoMarkerLine(k: nat, line: string)
    requires k < |RULES| && k != 2 && RULES[k].LineRule? && MatchLine(RULES[k].pattern, RULES[k].part, line).Some?
    ensures !IsMarkerLine(line)
  {
    if k == 6 {
      QuoteIsNoMarkerLine("> **Version courante** : ", Core, RULES[6].part, line);
    } else {
      TableShape(k);
      OpeningChar(RULES[k].pattern, VersionSync.Opening(k), line);
      OpeningIsNoMarkerLine(line, VersionSync.Opening(k));
    }
  }

  lemma QuoteIsNoMarkerLine(text: string, rest: Pattern, part: Part, line: string)
    requires MatchLine(Lit(text, rest), part, line).Some? && |text| > 1 && text[0] != text[1]
    ensures !IsMarkerLine(line)
  {
    CharAt(line, 0, text, 0);
    CharAt(line, 0, text, 1);
  }

  lemma OpeningIsNoMarkerLine(line: string, c: char)
    requires BlankEnd(line, 0) < |line| && line[BlankEnd(line, 0)] == c && c != '<' && c != '>'
    ensures !IsMarkerLine(line)
  {
  }

  lemma RuleKeepsMarkerLines(k: nat, line: string, v: Version)
    requires k < |RULES| && v.Valid()
    ensures IsMarkerLine(ApplyLine(RULES[k], line, v)) <==> IsMarkerLine(line)
  {
    if k == 2 {
      RewritingKeepsMarkerLines(line, v);
    } else {
      TableShape(k);
      if MatchLine(RULES[k].pattern, RULES[k].part, line).Some? {
        RewrittenLineMatches(RULES[k].pattern, RULES[k].part, line, v);
        MatchedIsNoMarkerLine(k, line);
        MatchedIsNoMarkerLine(k, ApplyLine(RULES[k], line, v));
      }
    }
  }

  lemma {:induction false} SyncKeepsMarkerLines(path: Path, k: nat, line: string, v: Version)
    requires k <= |RULES| && v.Valid()
    ensures IsMarkerLine(SyncLine(path, k, line, v)) <==> IsMarkerLine(line)
  {
    if k > 0 {
      SyncKeepsMarkerLines(path, k - 1, line, v);
      var before := SyncLine(path, k - 1, line, v);
      RuleKeepsMarkerLines(k - 1, before, v);
      assert SyncLine(path, k, line, v) == before || SyncLine(path, k, line, v) == ApplyLine(RULES[k - 1], before, v);
    }
  }

  lemma SameMarked(a: seq<string>, b: seq<string>)
    requires |a| == |b| && forall k :: 0 <= k < |a| ==> (IsMarkerLine(a[k]) <==> IsMarkerLine(b[k]))
    ensures Marked(a) <==> Marked(b)
  {
  }

  lemma SyncKeepsMarked(path: Path, text: seq<string>, v: Version)
    requires v.Valid()
    ensures Marked(SyncText(path, |RULES|, text, v)) <==> Marked(text)
  {
    forall k | 0 <= k < |text| ensures IsMarkerLine(SyncText(path, |RULES|, text, v)[k]) <==> IsMarkerLine(text[k]) {
      SyncKeepsMarkerLines(path, |RULES|, text[k], v);
    }
    SameMarked(SyncText(path, |RULES|, text, v), text);
  }

  lemma OpeningsAreNoMarkers(n: nat)
    requires n < |TARGETS|
    ensures |TARGETS[n].opening| > 0 && TARGETS[n].opening[0] != '<' && TARGETS[n].opening[0] != '>'
  {
  }

  lemma StampingKeepsMarked(t: Target, text: seq<string>, version: string)
    requires |t.opening| > 0 && t.opening[0] != '<' && t.opening[0] != '>'
    ensures Marked(StampMachineText(t, text, version)) <==> Marked(text)
  {
    var k := FirstMachineLine(t, text);
    if k < |text| {
      CharAt(text[k], 0, t.opening, 0);
      assert StampedLine(t, version)[0] == t.opening[0];
    }
    SameMarked(StampMachineText(t, text, version), text);
  }

  lemma {:induction false} StampedKeepsMarked(files: Tree, n: nat, version: string, p: Path)
    requires n <= |TARGETS| && p in files
    ensures Marked(MachineStamped(files, n, version)[p]) <==> Marked(files[p])
  {
    if n > 0 {
      StampedKeepsMarked(files, n - 1, version, p);
      OpeningsAreNoMarkers(n - 1);
      StampingKeepsMarked(TARGETS[n - 1], MachineStamped(files, n - 1, version)[p], version);
    }
  }

  /* ---- What can stop a run ---- */

  predicate SourceMissing(i: Inputs, n: nat)
    requires n < |TARGETS|
  {
    var text := Settled(i, TARGETS[n].path);
    FirstMachineLine(TARGETS[n], text) == |text|
  }

  lemma SettledText(i: Inputs, settled: Tree, p: Path)
    requires ConflictsSettled(i, settled)
    ensures TextOf(settled, p) == Settled(i, p)
  {
  }

  lemma StampedIff(i: Inputs, settled: Tree, version: string)
    requires ConflictsSettled(i, settled)
    ensures Stamped(settled, version).Go? <==> forall n :: 0 <= n < |TARGETS| ==> !SourceMissing(i, n)
  {
    forall n | 0 <= n < |TARGETS| ensures SourcePresent(settled, TARGETS[n]) <==> !SourceMissing(i, n) {
      SettledText(i, settled, TARGETS[n].path);
    }
  }

  lemma ConfigManaged(files: Tree)
    requires CONFIG in files
    ensures AnyManaged(files)
  {
    var glob := Exact(CONFIG);
    assert glob in RULES[3].globs && Matches(glob, CONFIG);
    assert Manages(RULES[3], CONFIG);
  }

  /** Once the sources are stamped config.h is there to be managed, so sync_version.py fails
      only when it cannot read the version back. */
  lemma SyncedIff(i: Inputs, settled: Tree, version: string)
    requires ConflictsSettled(i, settled) && Stamped(settled, version).Go?
    ensures Synced(Stamped(settled, version).tree).Go?
            <==> ReadCanonical(StampMachineText(TARGETS[0], Settled(i, TOML), version)).Some?
  {
    TargetsDistinct();
    assert SourcePresent(settled, TARGETS[0]) && SourcePresent(settled, TARGETS[2]);
    SettledText(i, settled, TOML);
    StampedAt(settled, |TARGETS|, 0, version);
    ConfigManaged(Stamped(settled, version).tree);
  }

  /** A published X.Y.Z can always be read back. */
  lemma PublishedVersionReadable(text: seq<string>, v: Version)
    requires v.Valid() && FirstMachineLine(TARGETS[0], text) < |text|
    ensures ReadCanonical(StampMachineText(TARGETS[0], text, v.Text())).Some?
  {
    var k := FirstMachineLine(TARGETS[0], text);
    StampedTomlLine(v);
    ReadAfterReplacing(text, k, StampedLine(TARGETS[0], v.Text()), v);
  }

  /** The tree that the generator is given. */
  function BeforeDocs(i: Inputs, version: string): Tree { Synced(Stamped(SettledTree(i), version).tree).tree }

  ghost predicate AnySourceMissing(i: Inputs) { exists n :: 0 <= n < |TARGETS| && SourceMissing(i, n) }

  predicate VersionUnreadable(i: Inputs, version: string) {
    ReadCanonical(StampMachineText(TARGETS[0], Settled(i, TOML), version)).None?
  }

  /** A marker in a file that is not generated, as its conflict was settled, or in a generated one. */
  ghost predicate MarkersLeft(i: Inputs, docs: Tree) {
    || (exists p :: p in SettledTree(i) && !Generated(p) && !ThirdParty(p) && Marked(SettledTree(i)[p]))
    || exists p :: p in docs && Generated(p) && Marked(docs[p])
  }

  lemma BeforeDocsMarked(i: Inputs, version: string, p: Path)
    requires Stamped(SettledTree(i), version).Go? && Synced(Stamped(SettledTree(i), version).tree).Go?
    ensures BeforeDocs(i, version).Keys == SettledTree(i).Keys
    ensures p in SettledTree(i) ==> (Marked(BeforeDocs(i, version)[p]) <==> Marked(SettledTree(i)[p]))
  {
    var stamped := Stamped(SettledTree(i), version).tree;
    if p in SettledTree(i) {
      StampedKeepsMarked(SettledTree(i), |TARGETS|, version, p);
      SyncKeepsMarked(p, stamped[p], ReadCanonical(TextOf(stamped, TOML)).value);
    }
  }

  /** The search for markers depends on the settled conflicts and the generated files alone. */
  lemma MarkersLeftIff(i: Inputs, generate: Generator, version: string)
    requires Stamped(SettledTree(i), version).Go? && Synced(Stamped(SettledTree(i), version).tree).Go?
    requires Regenerated(i, generate, BeforeDocs(i, version)).Go?
    ensures var docs := Regenerated(i, generate, BeforeDocs(i, version)).tree; HasConflictMarkers(docs) <==> MarkersLeft(i, docs)
  {
    var before := BeforeDocs(i, version);
    var docs := Regenerated(i, generate, before).tree;
    RegeneratedElsewhere(i, generate, before, docs);
    forall p ensures p in SettledTree(i) <==> p in before
             ensures p in SettledTree(i) ==> (Marked(before[p]) <==> Marked(SettledTree(i)[p]))
    {
      BeforeDocsMarked(i, version, p);
    }
    SameMarkers(i, SettledTree(i), before, docs);
  }

  lemma SameMarkers(i: Inputs, settled: Tree, before: Tree, docs: Tree)
    requires settled == SettledTree(i) && before.Keys == settled.Keys
    requires forall p :: p in settled ==> (Marked(before[p]) <==> Marked(settled[p]))
    requires forall p :: p in before && !Generated(p) ==> p in docs && docs[p] == before[p]
    requires forall p :: p in docs && !Generated(p) ==> p in before
    ensures HasConflictMarkers(docs) <==> MarkersLeft(i, docs)
  {
    forall p | Generated(p) ensures !ThirdParty(p) {
      assert p.dir == "";
    }
  }

  lemma PreparedIff(i: Inputs, generate: Generator, settled: Tree, version: string)
    ensures Prepared(i, generate, settled, version).Go?
            <==> Stamped(settled, version).Go? && Synced(Stamped(settled, version).tree).Go?
                 && var before := Synced(Stamped(settled, version).tree).tree;
                    Regenerated(i, generate, before).Go?
                    && !(i.grepWorks && HasConflictMarkers(Regenerated(i, generate, before).tree))
  {
  }

  /** A run that has begun to merge and meets no blocking conflict comes to its end, a commit
      or nothing to commit, unless the wanted side of a conflict is deleted, a machine source
      lacks its line, the stamped pyproject.toml has no X.Y.Z version to read back, the
      generator fails, or a conflict marker is left over. */
  lemma RunStopsIff(i: Inputs, generate: Generator, version: string)
    requires CanonicalVersion(TextOf(i.theirs, TOML)) == Some(version) && Begun(i) && !NeedsDecision(i)
    ensures Expected(i, generate, false).outcome.Failed?
            <==> !SidesPresent(i) || AnySourceMissing(i) || VersionUnreadable(i, version)
                 || Regenerated(i, generate, BeforeDocs(i, version)).Stop?
                 || (i.grepWorks && MarkersLeft(i, Regenerated(i, generate, BeforeDocs(i, version)).tree))
  {
    EndIs(i, generate, false);
  }

  /* ---- What a commit loses, and which version it carries ---- */

  /** For every resolved conflict on a text file that a commit contains: our substantive
      lines are all there, and the incoming side had changed none since the merge base,
      exactly when the diff reader overlooked none. */
  lemma CommittedMergeLosesNothingIff(i: Inputs, t: Tree, p: Path)
    requires Consistent(i) && CommitIsSound(i, t)
    requires p in i.conflicts && !Generated(p) && !Blocks(i.diffs, p) && i.diffs[p].Lines?
    requires p == TOML ==> TomlLineIsStamp(i, CanonicalVersion(TextOf(i.theirs, TOML)).value)
    ensures p in t && p in i.ours && Significant(t[p]) == Significant(i.ours[p])
    ensures Significant(TextOf(i.theirs, p)) == Significant(TextOf(i.base, p)) <==> !Overlooks(i.diffs[p].script)
  {
    EmptyReportLosesNothingIff(i.diffs[p].script);
  }

  lemma LooseOpening(s: string)
    requires TextAt(s, 0, "version") && |s| > 10 && s[7] == ' ' && s[8] == '=' && s[9] == ' ' && !IsBlank(s[10])
    ensures PrefixEnd(Lit("version", Blank0(Lit("=", Blank0(Core)))), s, 0) == Some(10)
  {
    BlankEndIs(s, 7, 8);
    BlankEndIs(s, 9, 10);
    assert TextAt(s, 8, "=");
    assert PrefixEnd(Blank0(Core), s, 9) == Some(10);
    assert PrefixEnd(Lit("=", Blank0(Core)), s, 8) == Some(10);
    assert PrefixEnd(Blank0(Lit("=", Blank0(Core))), s, 7) == Some(10);
  }

  lemma QuotedAtIs(s: string, n: nat, v: Version)
    requires v.Valid() && n < |s| && IsQuote(s[n]) && TextAt(s, n + 1, v.Text())
    requires n + 1 + |v.Text()| < |s| && IsQuote(s[n + 1 + |v.Text()|])
    ensures QuotedAt(s, Some(n)) == Some(v)
  {
    VersionAtText(s, n + 1, v);
  }

  lemma QuotedText(opening: string, quote: char, text: string)
    ensures var s := opening + [quote] + text + [quote];
            var n := |opening|;
            && TextAt(s, 0, opening) && n < |s| && s[n] == quote && TextAt(s, n + 1, text)
            && n + 1 + |text| < |s| && s[n + 1 + |text|] == quote
  {
    ThreeParts(opening + [quote], text, [quote]);
  }

  lemma VersionIsOpening(s: string)
    requires TextAt(s, 0, "version = ")
    ensures TextAt(s, 0, "version") && s[7] == ' ' && s[8] == '=' && s[9] == ' '
  {
    TextWithin(s, 0, "version = ", 0, "version");
    CharAt(s, 0, "version = ", 7);
    CharAt(s, 0, "version = ", 8);
    CharAt(s, 0, "version = ", 9);
  }

  lemma LooseVersionOfQuoted(v: Version, quote: char)
    requires v.Valid() && IsQuote(quote)
    ensures LooseVersion("version = " + [quote] + v.Text() + [quote]) == Some(v)
  {
    QuotedText("version = ", quote, v.Text());
    assert |"version = "| == 10;
    LooseVersionOf("version = " + [quote] + v.Text() + [quote], v);
  }

  lemma LooseVersionOf(s: string, v: Version)
    requires v.Valid() && TextAt(s, 0, "version = ")
    requires |s| > 10 && IsQuote(s[10]) && TextAt(s, 11, v.Text()) && 11 + |v.Text()| < |s| && IsQuote(s[11 + |v.Text()|])
    ensures LooseVersion(s) == Some(v)
  {
    VersionIsOpening(s);
    LooseOpening(s);
    QuotedAtIs(s, 10, v);
  }

  lemma StampedTomlLine(v: Version)
    requires v.Valid()
    ensures LooseVersion(StampedLine(TARGETS[0], v.Text())) == Some(v)
  {
    LooseVersionOfQuoted(v, '"');
    assert "\"" == ['"'];
    assert StampedLine(TARGETS[0], v.Text()) == "version = " + ['"'] + v.Text() + ['"'];
  }

  /** The version that sync_version.py reads back is the one just stamped exactly when no
      earlier line of pyproject.toml, unseen by the stamping pattern but accepted by the
      looser reading pattern, announces another one. */
  lemma StampsFollowRefIff(text: seq<string>, v: Version)
    requires v.Valid() && FirstMachineLine(TARGETS[0], text) < |text|
    ensures var k := FirstMachineLine(TARGETS[0], text);
            var j := FirstLoose(text[..k]);
            ReadCanonical(StampMachineText(TARGETS[0], text, v.Text())) == Some(v)
            <==> j == k || LooseVersion(text[j]) == Some(v)
  {
    var k := FirstMachineLine(TARGETS[0], text);
    StampedTomlLine(v);
    ReadAfterReplacing(text, k, StampedLine(TARGETS[0], v.Text()), v);
  }

  lemma ReadAfterReplacing(text: seq<string>, k: nat, line: string, v: Version)
    requires k < |text| && LooseVersion(line) == Some(v)
    ensures var j := FirstLoose(text[..k]);
            ReadCanonical(text[k := line]) == if j < k then LooseVersion(text[j]) else Some(v)
  {
    var j := FirstLoose(text[..k]);
    var replaced := text[k := line];
    assert forall n :: 0 <= n < k ==> replaced[n] == text[..k][n];
    forall n | 0 <= n < j ensures LooseVersion(replaced[n]).None? {
      assert replaced[n] == text[..k][n];
    }
    FirstLooseIs(replaced, j);
  }

  lemma FirstLooseIs(text: seq<string>, k: nat)
    requires k < |text| && LooseVersion(text[k]).Some?
    requires forall j :: 0 <= j < k ==> LooseVersion(text[j]).None?
    ensures FirstLoose(text) == k
  {
  }

  /** When the incoming ref publishes X.Y.Z, every managed stamp of a commit carries it,
      exactly up to the case above: the version read back is the published one, and the
      whole tree is in sync with it, unless an earlier version line got in the way. */
  lemma CommittedStampsFollowRefIff(i: Inputs, t: Tree, v: Version)
    requires CommitIsSound(i, t) && v.Valid() && CanonicalVersion(TextOf(i.theirs, TOML)) == Some(v.Text())
    ensures var text := Settled(i, TOML);
            var k := FirstMachineLine(TARGETS[0], text);
            var j := FirstLoose(text[..k]);
            (ReadCanonical(TextOf(t, TOML)) == Some(v) && TreeInSync(t, v)) <==> j == k || LooseVersion(text[j]) == Some(v)
  {
    TargetsDistinct();
    assert SourceStamped(i, t, 0, v.Text(), ReadCanonical(TextOf(t, TOML)).value);
    StampsFollowRefIff(Settled(i, TOML), v);
  }

  /** The other case does occur: after an earlier single-quoted version line the whole
      tree is synced to that version instead of the incoming one. */
  lemma EarlierVersionLineWins(u: Version, v: Version, w: Version)
    requires u.Valid() && v.Valid() && w.Valid() && u != v
    ensures var text := ["version = " + ['\''] + u.Text() + ['\''], StampedLine(TARGETS[0], w.Text())];
            && FirstMachineLine(TARGETS[0], text) == 1
            && ReadCanonical(StampMachineText(TARGETS[0], text, v.Text())) == Some(u)
  {
    var first, second := "version = " + ['\''] + u.Text() + ['\''], StampedLine(TARGETS[0], w.Text());
    LooseVersionOfQuoted(u, '\'');
    SingleQuoted(u.Text() + ['\'']);
    assert first == "version = " + ['\''] + (u.Text() + ['\'']);
    VersionHasNoQuote(w);
    SecondLineStamped(TARGETS[0], first, second, v.Text());
    FirstLooseIs(StampMachineText(TARGETS[0], [first, second], v.Text()), 0);
  }

  lemma SingleQuoted(rest: string)
    ensures !MachineLine(TARGETS[0], "version = " + ['\''] + rest)
  {
    var line := "version = " + ['\''] + rest;
    assert |"version = "| == 10 && |TARGETS[0].opening| == 11;
    assert line[0 + 10] == '\'' && TARGETS[0].opening[10] == '"';
  }

  lemma SecondLineStamped(t: Target, first: string, second: string, version: string)
    requires !MachineLine(t, first) && MachineLine(t, second)
    ensures FirstMachineLine(t, [first, second]) == 1
    ensures StampMachineText(t, [first, second], version)[0] == first
  {
    assert [first, second][1..] == [second];
  }

  lemma VersionHasNoQuote(w: Version)
    requires w.Valid()
    ensures |w.Text()| > 0 && NoQuote(w.Text())
    ensures MachineLine(TARGETS[0], StampedLine(TARGETS[0], w.Text()))
  {
    var t, text := TARGETS[0], w.Text();
    var line := StampedLine(t, text);
    forall k | 0 <= k < |text| ensures text[k] != '"' {
      assert IsDigit(text[k]) || text[k] == '.';
    }
    assert line[|t.opening|..|line| - |t.closing|] == text;
    StampedLineOpens(t, text);
  }
}

/** Resolving GGUF models: lembed_resolve_gguf_path of include/libembedding/downloader.h and
    the URL split of benchmarks/sparse/bench_sparse_backend_comparison.py.
 */
module GgufUrl {
  import opened Options
  import opened Sequences

  /** std::string::find: the first occurrence at or after position `from`. */
  function Find(s: string, pattern: string, from: nat): (r: Option<nat>)
    requires from <= |s|
    ensures r.Some? ==> from <= r.value && r.value + |pattern| <= |s|
    decreases |s| - from
  {
    if TextAt(s, from, pattern) then Some(from)
    else if from == |s| then None
    else Find(s, pattern, from + 1)
  }

  predicate AbsentBetween(s: string, pattern: string, from: nat, to: nat) {
    forall i :: from <= i < to ==> !TextAt(s, i, pattern)
  }

  lemma {:induction false} FindIsFirst(s: string, pattern: string, from: nat)
    requires from <= |s|
    ensures match Find(s, pattern, from)
            case None => AbsentBetween(s, pattern, from, |s| + 1)
            case Some(k) => TextAt(s, k, pattern) && AbsentBetween(s, pattern, from, k)
    decreases |s| - from
  {
    if !TextAt(s, from, pattern) && from < |s| {
      FindIsFirst(s, pattern, from + 1);
    }
  }

  lemma FindIs(s: string, pattern: string, from: nat, k: nat)
    requires from <= k <= |s| && TextAt(s, k, pattern) && AbsentBetween(s, pattern, from, k)
    ensures Find(s, pattern, from) == Some(k)
  {
    FindIsFirst(s, pattern, from);
  }

  const HOST := "huggingface.co/"
  const MARKER := "/resolve/main/"

  datatype RepoFile = RepoFile(repo: string, filename: string)

  /** The extraction that the C++ function spells out twice. */
  function Extract(url: string): Option<RepoFile> { ExtractBetween(url, HOST, MARKER) }

  function ExtractBetween(url: string, host: string, marker: string): Option<RepoFile> {
    match Find(url, host, 0)
    case None => None
    case Some(h) =>
      var repoStart := h + |host|;
      match Find(url, marker, repoStart)
      case None => None
      case Some(repoEnd) => Some(RepoFile(url[repoStart..repoEnd], url[repoEnd + |marker|..]))
  }

  /** Python's s.split(sep, 1). */
  function SplitOnce(s: string, sep: string): (parts: seq<string>)
    ensures 1 <= |parts| <= 2
  {
    match Find(s, sep, 0)
    case None => [s]
    case Some(i) => [s[..i], s[i + |sep|..]]
  }

  datatype PythonResult = Split(parts: RepoFile) | LookupError | IndexError | UnpackError

  /** marker test, split at the host, split at the marker, unpack into two. */
  function PythonSplit(url: string): PythonResult { SplitBetween(url, HOST, MARKER) }

  function SplitMarker(s: string, marker: string): PythonResult {
    var parts := SplitOnce(s, marker);
    if |parts| != 2 then UnpackError else Split(RepoFile(parts[0], parts[1]))
  }

  function SplitBetween(url: string, host: string, marker: string): PythonResult {
    if Find(url, marker, 0).None? then LookupError
    else
      var byHost := SplitOnce(url, host);
      if |byHost| < 2 then IndexError
      else
        SplitMarker(byHost[1], marker)
  }

  lemma OccursInTail(s: string, pattern: string, from: nat, i: int)
    requires from <= |s| && i >= 0
    ensures TextAt(s[from..], i, pattern) <==> TextAt(s, from + i, pattern)
  {
    if i + |pattern| <= |s| - from {
      forall k | 0 <= k < |pattern| ensures s[from..][i + k] == pattern[k] <==> s[from + i + k] == pattern[k] {
      }
    }
  }

  // Searching from a position is searching the tail.
  lemma FindInTail(s: string, pattern: string, from: nat)
    requires from <= |s|
    ensures match Find(s[from..], pattern, 0)
            case None => Find(s, pattern, from).None?
            case Some(k) => Find(s, pattern, from).Some? && Find(s, pattern, from).value == from + k
  {
    FindIsFirst(s[from..], pattern, 0);
    FindIsFirst(s, pattern, from);
    match Find(s[from..], pattern, 0)
    case Some(k) =>
      OccursInTail(s, pattern, from, k);
      AbsentInTail(s, pattern, from, k);
      FindIs(s, pattern, from, from + k);
    case None =>
      AbsentInTail(s, pattern, from, |s| - from + 1);
  }

  lemma AbsentInTail(s: string, pattern: string, from: nat, k: nat)
    requires from <= |s| && AbsentBetween(s[from..], pattern, 0, k)
    ensures AbsentBetween(s, pattern, from, from + k)
  {
    forall i | from <= i < from + k ensures !TextAt(s, i, pattern) {
      OccursInTail(s, pattern, from, i - from);
    }
  }

  /** The Python split succeeds exactly on the URLs that the C++ extraction accepts, and
      then yields the same repository and file. */
  lemma PythonAgreesWithCpp(url: string)
    ensures Extract(url).Some? ==> PythonSplit(url) == Split(Extract(url).value)
    ensures Extract(url).None? ==> !PythonSplit(url).Split?
  {
    SplitsAgree(url, HOST, MARKER);
  }

  lemma SplitMarkerIs(s: string, marker: string)
    ensures match Find(s, marker, 0)
            case None => SplitMarker(s, marker) == UnpackError
            case Some(k) => SplitMarker(s, marker) == Split(RepoFile(s[..k], s[k + |marker|..]))
  {
  }

  lemma SplitAfterHost(url: string, host: string, marker: string)
    requires Find(url, marker, 0).Some?
    ensures match Find(url, host, 0)
            case None => SplitBetween(url, host, marker) == IndexError
            case Some(h) => SplitBetween(url, host, marker) == SplitMarker(url[h + |host|..], marker)
  {
  }

  lemma SplitsAgree(url: string, host: string, marker: string)
    ensures match ExtractBetween(url, host, marker)
            case None => !SplitBetween(url, host, marker).Split?
            case Some(target) => SplitBetween(url, host, marker) == Split(target)
  {
    CutAfterHost(url, host, marker);
    if Find(url, host, 0).Some? {
      var from := Find(url, host, 0).value + |host|;
      FoundInTail(url, marker, from);
      SplitMarkerIs(url[from..], marker);
    }
    if Find(url, marker, 0).Some? {
      SplitAfterHost(url, host, marker);
    }
  }

  // What follows the host decides the extraction.
  lemma CutAfterHost(url: string, host: string, marker: string)
    ensures match Find(url, host, 0)
            case None => ExtractBetween(url, host, marker).None?
            case Some(h) =>
              var rest := url[h + |host|..];
              match Find(rest, marker, 0)
              case None => ExtractBetween(url, host, marker).None?
              case Some(k) => ExtractBetween(url, host, marker) == Some(RepoFile(rest[..k], rest[k + |marker|..]))
  {
    match Find(url, host, 0)
    case None =>
    case Some(h) =>
      var from := h + |host|;
      FindInTail(url, marker, from);
      match Find(url, marker, from)
      case None =>
      case Some(m) => SliceOfTail(url, from, m, |marker|);
  }

  lemma FoundInTail(s: string, pattern: string, from: nat)
    requires from <= |s|
    ensures Find(s[from..], pattern, 0).Some? ==> Find(s, pattern, 0).Some?
  {
    FindInTail(s, pattern, from);
    if Find(s, pattern, from).Some? {
      FindIsFirst(s, pattern, from);
      FindIsFirst(s, pattern, 0);
    }
  }

  lemma SliceOfTail(s: string, from: nat, m: nat, n: nat)
    requires from <= m && m + n <= |s|
    ensures s[from..][..m - from] == s[from..m] && s[from..][m - from + n..] == s[m + n..]
  {
  }

  function BuildUrl(repo: string, filename: string): string {
    "https://" + HOST + repo + MARKER + filename
  }

  // In "https://huggingface.co/..." the host is found where it stands.
  lemma HostFound(rest: string)
    ensures Find("https://" + HOST + rest, HOST, 0) == Some(8)
  {
    var url := "https://" + HOST + rest;
    var scheme := "https://";
    assert |scheme| == 8 && |HOST| == 15;
    assert url[8..8 + |HOST|] == HOST;
    forall i | 0 <= i < 8 ensures !TextAt(url, i, HOST) {
      if TextAt(url, i, HOST) {
        CharAt(url, i, HOST, 0);
        CharAt(url, i, HOST, 1);
      }
    }
    FindIs(url, HOST, 0, 8);
  }

  /** "/resolve/main/" overlaps itself in its outer slash only. */
  lemma MarkerOverlap(s: string, i: nat, j: nat)
    requires TextAt(s, i, MARKER) && TextAt(s, j, MARKER) && i < j
    ensures j >= i + 13
  {
    assert |MARKER| == 14 && MARKER[1] == 'r' && forall k :: 2 <= k < 14 ==> MARKER[k] != 'r';
    CharAt(s, j, MARKER, 1);
    if j < i + 13 {
      CharAt(s, i, MARKER, j - i + 1);
    }
  }

  predicate MarkerFree(repo: string) {
    forall i :: 0 <= i <= |repo| ==> !TextAt(repo + "/", i, MARKER)
  }

  // An occurrence before the real marker lies within repo + "/", and conversely.
  lemma EarlierMarker(repo: string, filename: string, i: nat)
    requires i < |repo|
    ensures TextAt(repo + MARKER + filename, i, MARKER) <==> TextAt(repo + "/", i, MARKER)
  {
    var s, t := repo + MARKER + filename, repo + "/";
    assert s[|repo|..|repo| + |MARKER|] == MARKER;
    assert |MARKER| == 14 && MARKER[0] == '/';
    if TextAt(s, i, MARKER) {
      MarkerOverlap(s, i, |repo|);
    }
    if i + 14 <= |repo| + 1 {
      assert s[..|repo| + 1] == t;
      assert s[i..i + 14] == s[..|repo| + 1][i..i + 14] == t[i..i + 14];
    }
  }

  lemma FindAfterRepo(repo: string, filename: string)
    ensures Find(repo + MARKER + filename, MARKER, 0).Some?
    ensures Find(repo + MARKER + filename, MARKER, 0) == Some(|repo|) <==> MarkerFree(repo)
  {
    var s := repo + MARKER + filename;
    assert TextAt(s, |repo|, MARKER);
    FindIsFirst(s, MARKER, 0);
    if MarkerFree(repo) {
      forall i | 0 <= i < |repo| ensures !TextAt(s, i, MARKER) {
        EarlierMarker(repo, filename, i);
      }
      FindIs(s, MARKER, 0, |repo|);
    } else {
      var i :| 0 <= i <= |repo| && TextAt(repo + "/", i, MARKER);
      EarlierMarker(repo, filename, i);
    }
  }

  // From a built URL, extraction cuts everything after the host at the first marker.
  lemma BuiltUrlExtract(repo: string, filename: string)
    ensures var rest := repo + MARKER + filename;
            var k := Find(rest, MARKER, 0);
            k.Some? && Extract(BuildUrl(repo, filename)) == Some(RepoFile(rest[..k.value], rest[k.value + |MARKER|..]))
  {
    var rest := repo + MARKER + filename;
    var url := BuildUrl(repo, filename);
    assert url == "https://" + HOST + rest;
    HostFound(rest);
    FindAfterRepo(repo, filename);
    assert url[8 + |HOST|..] == rest;
    CutAfterHost(url, HOST, MARKER);
  }

  /** Extraction from a built URL gives back (repo, filename) exactly when the marker does
      not already occur in the repository name followed by a slash. */
  lemma BuildThenExtractIff(repo: string, filename: string)
    ensures Extract(BuildUrl(repo, filename)) == Some(RepoFile(repo, filename)) <==> MarkerFree(repo)
  {
    var rest := repo + MARKER + filename;
    BuiltUrlExtract(repo, filename);
    FindAfterRepo(repo, filename);
    var k := Find(rest, MARKER, 0).value;
    if k == |repo| {
      assert rest[..k] == repo && rest[k + |MARKER|..] == filename;
    }
  }

  /* ---- The whole resolution ---- */

  /** What the resolver does with its input: a local file, a download request, or an error. */
  datatype Resolution = LocalFile(path: string) | Ensure(target: RepoFile) | DownloadError | InvalidArgument

  function ToLower(c: char): char { if 'A' <= c <= 'Z' then c - 'A' + 'a' else c }

  function Lower(s: string): (r: string)
    ensures |r| == |s|
  {
    seq(|s|, i requires 0 <= i < |s| => ToLower(s[i]))
  }

  predicate HasGgufSuffix(s: string) { |s| > 5 && Lower(s)[|s| - 5..] == ".gguf" }

  predicate IsUrl(s: string) { TextAt(s, 0, "http://") || TextAt(s, 0, "https://") }

  /** lembed_resolve_gguf_path, given which files exist and the URL the registry has for a
      name (empty when it has none). */
  function Resolve(input: string, fileExists: string -> bool, registryUrl: string -> string): Resolution {
    if input == "" then InvalidArgument
    else if HasGgufSuffix(input) && fileExists(input) then LocalFile(input)
    else if IsUrl(input) then
      match Extract(input)
      case None => DownloadError
      case Some(target) => Ensure(target)
    else if registryUrl(input) != "" && Extract(registryUrl(input)).Some? then Ensure(Extract(registryUrl(input)).value)
    else
      match Find(input, "/", 0)
      case None => InvalidArgument
      case Some(slash) =>
        if 0 < slash < |input| - 1 then Ensure(RepoFile(input[..slash], input[slash + 1..])) else InvalidArgument
  }

  /** The built URL of a repository resolves to that repository and file exactly when the
      marker cannot be found too early (and no such local file gets in the way). */
  lemma ResolveBuiltUrlIff(repo: string, filename: string, fileExists: string -> bool, registryUrl: string -> string)
    requires !fileExists(BuildUrl(repo, filename))
    ensures Resolve(BuildUrl(repo, filename), fileExists, registryUrl) == Ensure(RepoFile(repo, filename)) <==> MarkerFree(repo)
  {
    var url := BuildUrl(repo, filename);
    assert TextAt(url, 0, "https://");
    BuildThenExtractIff(repo, filename);
  }

  /** The shorthand "<repo>/<filename>" comes back as written exactly when the repository
      name has no slash of its own, which leaves out every "owner/name" repository. */
  lemma ShorthandIff(repo: string, filename: string, fileExists: string -> bool, registryUrl: string -> string)
    requires repo != "" && filename != ""
    requires var input := repo + "/" + filename;
             !fileExists(input) && !IsUrl(input) && registryUrl(input) == ""
    ensures Resolve(repo + "/" + filename, fileExists, registryUrl) == Ensure(RepoFile(repo, filename)) <==> '/' !in repo
  {
    var input := repo + "/" + filename;
    assert TextAt(input, |repo|, "/");
    FindIsFirst(input, "/", 0);
    if '/' !in repo {
      forall i | 0 <= i < |repo| ensures !TextAt(input, i, "/") {
        assert input[i + 0] == repo[i] != "/"[0];
      }
      FindIs(input, "/", 0, |repo|);
      assert input[..|repo|] == repo && input[|repo| + 1..] == filename;
    } else {
      var i :| 0 <= i < |repo| && repo[i] == '/';
      assert TextAt(input, i, "/");
    }
  }

  /* ---- The resolution, case by case and in characters ---- */

  /** The text is read at k, and nowhere between there and where the search begins. */
  ghost predicate FirstAt(s: string, from: nat, text: string, k: nat) {
    from <= k && Reads(s, k, text) && forall i: nat :: from <= i < k ==> !Reads(s, i, text)
  }

  lemma FindIff(s: string, text: string, from: nat, k: nat)
    requires from <= |s|
    ensures Find(s, text, from) == Some(k) <==> FirstAt(s, from, text, k)
  {
    FindIsFirst(s, text, from);
    forall i: nat ensures TextAt(s, i, text) <==> Reads(s, i, text) {
      ReadsIsText(s, i, text);
    }
    if FirstAt(s, from, text, k) {
      FindIs(s, text, from, k);
    }
  }

  /** The repository is what stands between the first host and the first marker behind it, the
      file name what follows. */
  ghost predicate SplitsAs(url: string, host: string, marker: string, h: nat, m: nat, target: RepoFile) {
    FirstAt(url, 0, host, h) && FirstAt(url, h + |host|, marker, m)
    && target == RepoFile(url[h + |host|..m], url[m + |marker|..])
  }

  /** A URL is split there. */
  lemma ExtractIff(url: string, target: RepoFile)
    ensures Extract(url) == Some(target) <==>
              exists h: nat, m: nat :: SplitsAs(url, "huggingface.co/", "/resolve/main/", h, m, target)
  {
    ExtractBetweenIff(url, HOST, MARKER, target);
  }

  lemma ExtractBetweenIff(url: string, host: string, marker: string, target: RepoFile)
    ensures ExtractBetween(url, host, marker) == Some(target) <==>
              exists h: nat, m: nat :: SplitsAs(url, host, marker, h, m, target)
  {
    if ExtractBetween(url, host, marker) == Some(target) {
      var h, m := ExtractBetweenParts(url, host, marker);
      assert SplitsAs(url, host, marker, h, m, target);
    }
    if h: nat, m: nat :| SplitsAs(url, host, marker, h, m, target) {
      ExtractBetweenIs(url, host, marker, h, m);
    }
  }

  lemma ExtractBetweenParts(url: string, host: string, marker: string) returns (h: nat, m: nat)
    requires ExtractBetween(url, host, marker).Some?
    ensures FirstAt(url, 0, host, h) && FirstAt(url, h + |host|, marker, m)
    ensures ExtractBetween(url, host, marker).value == RepoFile(url[h + |host|..m], url[m + |marker|..])
  {
    h := Find(url, host, 0).value;
    m := Find(url, marker, h + |host|).value;
    FindIff(url, host, 0, h);
    FindIff(url, marker, h + |host|, m);
  }

  lemma ExtractBetweenIs(url: string, host: string, marker: string, h: nat, m: nat)
    requires FirstAt(url, 0, host, h) && FirstAt(url, h + |host|, marker, m)
    ensures ExtractBetween(url, host, marker) == Some(RepoFile(url[h + |host|..m], url[m + |marker|..]))
  {
    FindIff(url, host, 0, h);
    FindIff(url, marker, h + |host|, m);
  }

  /** .gguf at the end, in either case, behind at least one character. */
  predicate GgufName(s: string) {
    var n := |s|;
    n > 5 && s[n - 5] == '.' && s[n - 4] in "gG" && s[n - 3] in "gG" && s[n - 2] in "uU" && s[n - 1] in "fF"
  }

  lemma SuffixIs(s: string)
    ensures HasGgufSuffix(s) <==> GgufName(s)
  {
    if |s| > 5 {
      var n := |s|;
      assert Lower(s)[n - 5..] == [ToLower(s[n - 5]), ToLower(s[n - 4]), ToLower(s[n - 3]), ToLower(s[n - 2]), ToLower(s[n - 1])];
      assert ".gguf" == ['.', 'g', 'g', 'u', 'f'];
      LettersIs(s[n - 5], s[n - 4], s[n - 3], s[n - 2], s[n - 1]);
    }
  }

  lemma LettersIs(a: char, b: char, c: char, d: char, e: char)
    ensures [ToLower(a), ToLower(b), ToLower(c), ToLower(d), ToLower(e)] == ['.', 'g', 'g', 'u', 'f']
            <==> a == '.' && b in "gG" && c in "gG" && d in "uU" && e in "fF"
  {
    var s, t := [ToLower(a), ToLower(b), ToLower(c), ToLower(d), ToLower(e)], ['.', 'g', 'g', 'u', 'f'];
    if s == t {
      assert s[0] == t[0] && s[1] == t[1] && s[2] == t[2] && s[3] == t[3] && s[4] == t[4];
    }
  }

  /** An existing .gguf file comes first, then a URL, then the registry, then the shorthand,
      cut at its first slash. */
  lemma ResolveIs(input: string, fileExists: string -> bool, registryUrl: string -> string)
    ensures var r := Resolve(input, fileExists, registryUrl);
            var url := Reads(input, 0, "http://") || Reads(input, 0, "https://");
            && (input == "" ==> r == InvalidArgument)
            && (forall path :: r == LocalFile(path) <==> path == input && GgufName(input) && fileExists(input))
            && (!r.LocalFile? && url ==> r == match Extract(input) case None => DownloadError case Some(target) => Ensure(target))
            && (!r.LocalFile? && !url && input != "" ==>
                  if registryUrl(input) != "" && Extract(registryUrl(input)).Some? then r == Ensure(Extract(registryUrl(input)).value)
                  else if exists k: nat :: 0 < k < |input| - 1 && FirstAt(input, 0, "/", k)
                  then r.Ensure? && input == r.target.repo + "/" + r.target.filename && '/' !in r.target.repo
                       && r.target.repo != "" && r.target.filename != ""
                  else r == InvalidArgument)
  {
    SuffixIs(input);
    UrlIs(input);
    if input != "" {
      SlashIs(input);
    }
  }

  lemma UrlIs(input: string)
    ensures IsUrl(input) <==> Reads(input, 0, "http://") || Reads(input, 0, "https://")
  {
    ReadsIsText(input, 0, "http://");
    ReadsIsText(input, 0, "https://");
  }

  lemma SlashIs(input: string)
    ensures forall k: nat :: Find(input, "/", 0) == Some(k) <==> FirstAt(input, 0, "/", k)
    ensures Find(input, "/", 0).Some? ==>
              var k := Find(input, "/", 0).value;
              k < |input| && input == input[..k] + "/" + input[k + 1..] && '/' !in input[..k]
  {
    forall k: nat ensures Find(input, "/", 0) == Some(k) <==> FirstAt(input, 0, "/", k) {
      FindIff(input, "/", 0, k);
    }
    if Find(input, "/", 0).Some? {
      FirstSlash(input, Find(input, "/", 0).value);
    }
  }

  lemma FirstSlash(input: string, k: nat)
    requires Find(input, "/", 0) == Some(k)
    ensures k < |input| && input == input[..k] + "/" + input[k + 1..] && '/' !in input[..k]
  {
    FindIsFirst(input, "/", 0);
    CharAt(input, k, "/", 0);
    assert "/" == ['/'];
    forall i | 0 <= i < k ensures input[i] != '/' {
      if input[i] == '/' {
        OneCharText(input, i, '/');
      }
    }
  }

  lemma OneCharText(s: string, i: nat, c: char)
    requires i < |s| && s[i] == c
    ensures TextAt(s, i, [c])
  {
  }
}

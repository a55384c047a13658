/** Source locations and the permalink printed from them (packages/shared/src/source-location.ts). */
module SourceLocation {
  import opened Sequences
  import opened JsText
  import opened NumberText
  import opened Percent

  datatype SourceLocation = SourceLocation(functionName: Option<string>, filePath: string, line: Option<Number>)

  datatype SourceLocationInput =
    SourceLocationInput(functionName: Option<string>, filePath: Option<string>, line: Option<Number>)

  datatype SourceContext = SourceContext(repositoryUrl: Option<string>, releaseSha: Option<string>)

  function Trimmed(value: Option<string>): Option<string> {
    if value.Some? && Trim(value.value) != "" then Some(Trim(value.value)) else None
  }

  predicate ProperSegment(segment: string) {
    segment != "" && segment != "." && segment != ".." && segment != "node_modules"
  }

  predicate IsRepoRelativePath(path: string) {
    if '\\' in path then false
    else if ':' in path then false
    else if path != "" && path[0] == '/' then false
    else forall i :: 0 <= i < |Split('/', path)| ==> ProperSegment(Split('/', path)[i])
  }

  /** A line number is a positive integer; anything else is dropped, not the location with it. */
  predicate UsableLine(x: Number) {
    x.Finite? && !x.negative && |x.digits| <= x.n
  }

  function NormalizeSourceLocation(input: SourceLocationInput): Option<SourceLocation> {
    var filePath := Trimmed(input.filePath);
    if filePath.None? || !IsRepoRelativePath(filePath.value) then None
    else
      var line := if input.line.Some? && UsableLine(input.line.value) then input.line else None;
      Some(SourceLocation(Trimmed(input.functionName), filePath.value, line))
  }

  /** What normalising accepts: paths that are a list of proper segments, none of them holding a
      backslash or a colon. */
  lemma AcceptedPaths(path: string)
    ensures IsRepoRelativePath(path) <==>
      exists segments: seq<string> ::
        && segments != [] && path == Join('/', segments)
        && forall i :: 0 <= i < |segments| ==>
             && segments[i] != "" && segments[i] != "." && segments[i] != ".." && segments[i] != "node_modules"
             && '/' !in segments[i] && '\\' !in segments[i] && ':' !in segments[i]
  {
    var parts := Split('/', path);
    SplitParts('/', path);
    if IsRepoRelativePath(path) {
      forall i | 0 <= i < |parts| ensures '\\' !in parts[i] && ':' !in parts[i] {
        PartOfJoin('/', parts, i);
      }
    }
    if segments: seq<string> :|
      && segments != [] && path == Join('/', segments)
      && forall i :: 0 <= i < |segments| ==>
           && segments[i] != "" && segments[i] != "." && segments[i] != ".." && segments[i] != "node_modules"
           && '/' !in segments[i] && '\\' !in segments[i] && ':' !in segments[i]
    {
      SplitOfJoin('/', segments);
      JoinHoldsNo('\\', '/', segments);
      JoinHoldsNo(':', '/', segments);
      assert segments[0] != "" && path[0] == segments[0][0];
    }
  }

  /** What normalising gives: nothing for a bad path; otherwise the trimmed path, the trimmed function name
      unless it is blank, and the line if it is a positive integer. */
  lemma NormalizedLocation(input: SourceLocationInput)
    ensures var location := NormalizeSourceLocation(input);
      && (location.Some? <==> input.filePath.Some? && Trim(input.filePath.value) != ""
                              && IsRepoRelativePath(Trim(input.filePath.value)))
      && (location.Some? ==>
            && location.value.filePath == Trim(input.filePath.value)
            && location.value.functionName
               == (if input.functionName.Some? && Trim(input.functionName.value) != ""
                   then Some(Trim(input.functionName.value)) else None)
            && location.value.line
               == (if input.line.Some? && input.line.value.Finite? && !input.line.value.negative
                     && |input.line.value.digits| <= input.line.value.n
                   then input.line else None))
  {
  }

  lemma PartOfJoin(c: char, parts: seq<string>, i: nat)
    requires i < |parts|
    ensures forall x :: x in parts[i] ==> x in Join(c, parts)
  {
    if i > 0 { PartOfJoin(c, parts[1..], i - 1); }
  }

  lemma JoinHoldsNo(x: char, c: char, parts: seq<string>)
    requires x != c && forall i :: 0 <= i < |parts| ==> x !in parts[i]
    ensures x !in Join(c, parts)
  {
  }

  /** A location that passed once passes again, unchanged. */
  lemma NormalizeIsIdempotent(input: SourceLocationInput)
    ensures match NormalizeSourceLocation(input)
      case None => true
      case Some(l) => NormalizeSourceLocation(SourceLocationInput(l.functionName, Some(l.filePath), l.line)) == Some(l)
  {
    if input.filePath.Some? { TrimTrimmed(Trim(input.filePath.value)); }
    if input.functionName.Some? { TrimTrimmed(Trim(input.functionName.value)); }
  }

  // ----------------------------------------------------------------------------------------
  // Encoded paths
  // ----------------------------------------------------------------------------------------

  function EncodeAll(segments: seq<string>): (encoded: seq<string>)
    ensures |encoded| == |segments|
    ensures forall i :: 0 <= i < |segments| ==> encoded[i] == EncodeURIComponent(segments[i])
  {
    if segments == [] then [] else [EncodeURIComponent(segments[0])] + EncodeAll(segments[1..])
  }

  function DecodeAll(encoded: seq<string>): Option<seq<string>> {
    if encoded == [] then Some([])
    else
      match (DecodeURIComponent(encoded[0]), DecodeAll(encoded[1..]))
      case (Some(first), Some(rest)) => Some([first] + rest)
      case _ => None
  }

  lemma {:induction false} DecodeEncodedAll(segments: seq<string>, encoded: seq<string>)
    requires |encoded| == |segments|
    requires forall i :: 0 <= i < |segments| ==> DecodeURIComponent(encoded[i]) == Some(segments[i])
    ensures DecodeAll(encoded) == Some(segments)
  {
    if segments != [] {
      DecodeEncodedAll(segments[1..], encoded[1..]);
      assert segments == [segments[0]] + segments[1..];
    }
  }

  lemma EncodedSegments(segments: seq<string>)
    requires segments != []
    ensures Joinable('/', EncodeAll(segments))
    ensures DecodeAll(EncodeAll(segments)) == Some(segments)
    ensures '#' !in Join('/', EncodeAll(segments)) && ':' !in Join('/', EncodeAll(segments))
  {
    forall i | 0 <= i < |segments|
      ensures '/' !in EncodeAll(segments)[i] && '#' !in EncodeAll(segments)[i] && ':' !in EncodeAll(segments)[i]
      ensures DecodeURIComponent(EncodeAll(segments)[i]) == Some(segments[i])
    {
      PlainHoldsNo(segments[i], '/');
      PlainHoldsNo(segments[i], '#');
      PlainHoldsNo(segments[i], ':');
      DecodeEncode(segments[i]);
    }
    DecodeEncodedAll(segments, EncodeAll(segments));
    JoinHoldsNo('#', '/', EncodeAll(segments));
    JoinHoldsNo(':', '/', EncodeAll(segments));
  }

  // ----------------------------------------------------------------------------------------
  // Repository URLs
  // ----------------------------------------------------------------------------------------

  predicate AlphaNumeric(c: char) {
    'A' <= c <= 'Z' || 'a' <= c <= 'z' || '0' <= c <= '9'
  }

  /** `/^[A-Za-z0-9][A-Za-z0-9._-]*$/` */
  predicate OwnerOrRepo(s: string) {
    s != "" && AlphaNumeric(s[0]) && forall i :: 0 <= i < |s| ==> AlphaNumeric(s[i]) || s[i] in "._-"
  }

  /** `/^[0-9a-f]{7,40}$/i` */
  predicate IsSha(s: string) {
    7 <= |s| <= 40 && forall i :: 0 <= i < |s| ==> '0' <= s[i] <= '9' || 'a' <= s[i] <= 'f' || 'A' <= s[i] <= 'F'
  }

  function After(prefix: string, s: string): Option<string> {
    if prefix <= s then Some(s[|prefix|..]) else None
  }

  lemma AfterPrefix(prefix: string, s: string)
    ensures prefix <= prefix + s && After(prefix, prefix + s) == Some(s)
  {
  }

  predicate EndsWith(s: string, suffix: string) {
    |suffix| <= |s| && s[|s| - |suffix|..] == suffix
  }

  const DOT_GIT := ".git"

  /** `([^/]+?)(?:\.git)?\/?$`: the shortest repo name that leaves at most `.git` and a slash. */
  function RepoName(tail: string): Option<string> {
    var t := if EndsWith(tail, "/") then tail[..|tail| - 1] else tail;
    if t == "" || '/' in t then None
    else if EndsWith(t, DOT_GIT) && |t| > |DOT_GIT| then Some(t[..|t| - |DOT_GIT|])
    else Some(t)
  }

  /** `([^/]+)\/`, then the repo name. */
  function OwnerAndRepo(rest: string): Option<(string, string)> {
    var (owner, tail) := SplitAt('/', rest);
    if owner == "" || tail.None? then None
    else
      match RepoName(tail.value)
      case None => None
      case Some(repo) => if OwnerOrRepo(owner) && OwnerOrRepo(repo) then Some((owner, repo)) else None
  }

  const GITHUB := "https://github.com/"

  /** The three spellings of a GitHub remote. */
  function RemotePath(value: string): Option<string> {
    if GITHUB <= value then After(GITHUB, value)
    else if "http://github.com/" <= value then After("http://github.com/", value)
    else if "git@github.com:" <= value then After("git@github.com:", value)
    else After("ssh://git@github.com/", value)
  }

  function ParseRepository(raw: Option<string>): Option<(string, string)> {
    match Trimmed(raw)
    case None => None
    case Some(value) =>
      match RemotePath(value)
      case None => None
      case Some(rest) => OwnerAndRepo(rest)
  }

  function RepositoryUrl(owner: string, repo: string): string {
    GITHUB + owner + ['/'] + repo
  }

  function NormalizeRepositoryUrl(raw: Option<string>): Option<string> {
    match ParseRepository(raw)
    case None => None
    case Some((owner, repo)) => Some(RepositoryUrl(owner, repo))
  }

  lemma ParsedNames(raw: Option<string>)
    ensures match ParseRepository(raw)
      case None => true
      case Some((owner, repo)) => OwnerOrRepo(owner) && OwnerOrRepo(repo)
  {
  }

  function WithoutDotGit(repo: string): string {
    if EndsWith(repo, DOT_GIT) then repo[..|repo| - |DOT_GIT|] else repo
  }

  lemma NameOfRepo(repo: string)
    requires OwnerOrRepo(repo)
    ensures RepoName(repo) == Some(WithoutDotGit(repo))
    ensures OwnerOrRepo(WithoutDotGit(repo))
  {
    assert repo[|repo| - 1] in repo;
    EndingOf(repo, "/");
    EndingOf(repo, DOT_GIT);
  }

  lemma EndingOf(s: string, suffix: string)
    requires s != "" && suffix != ""
    ensures EndsWith(s, suffix) ==> s[|s| - 1] == suffix[|suffix| - 1]
    ensures EndsWith(s, suffix) && |s| == |suffix| ==> s[0] == suffix[0]
  {
    if EndsWith(s, suffix) {
      assert s[|s| - |suffix|..][|suffix| - 1] == s[|s| - 1];
      assert s[|s| - |suffix|..][0] == s[|s| - |suffix|];
    }
  }

  lemma ParsePath(owner: string, repo: string)
    requires OwnerOrRepo(owner) && OwnerOrRepo(repo)
    ensures OwnerAndRepo(owner + ['/'] + repo) == Some((owner, WithoutDotGit(repo)))
  {
    SplitAtJoined('/', owner, repo);
    NameOfRepo(repo);
  }

  lemma PrintedIsTrimmed(owner: string, repo: string)
    requires OwnerOrRepo(owner) && OwnerOrRepo(repo)
    ensures Trimmed(Some(RepositoryUrl(owner, repo))) == Some(RepositoryUrl(owner, repo))
  {
    var url := RepositoryUrl(owner, repo);
    assert url[0] == 'h' && url[|url| - 1] == repo[|repo| - 1];
    TrimTrimmed(url);
  }

  /** Reading a printed repository URL again. */
  lemma ParsePrinted(owner: string, repo: string)
    requires OwnerOrRepo(owner) && OwnerOrRepo(repo)
    ensures ParseRepository(Some(RepositoryUrl(owner, repo))) == Some((owner, WithoutDotGit(repo)))
  {
    PrintedIsTrimmed(owner, repo);
    AfterPrefix(GITHUB, owner + ['/'] + repo);
    assert RepositoryUrl(owner, repo) == GITHUB + (owner + ['/'] + repo);
    ParsePath(owner, repo);
  }

  /** Normalising a normalised URL changes nothing, exactly when that URL does not end in `.git`; a repo
      name that does loses that ending the second time. */
  lemma NormalizingTwice(raw: Option<string>)
    requires NormalizeRepositoryUrl(raw).Some?
    ensures var url := NormalizeRepositoryUrl(raw);
      NormalizeRepositoryUrl(url) == url <==> !EndsWith(url.value, DOT_GIT)
  {
    var (owner, repo) := ParseRepository(raw).value;
    var url := RepositoryUrl(owner, repo);
    ParsedNames(raw);
    ParsePrinted(owner, repo);
    UrlEnding(owner, repo);
    if EndsWith(repo, DOT_GIT) {
      assert |RepositoryUrl(owner, WithoutDotGit(repo))| < |url|;
    }
  }

  lemma UrlEnding(owner: string, repo: string)
    requires OwnerOrRepo(owner) && OwnerOrRepo(repo)
    ensures EndsWith(RepositoryUrl(owner, repo), DOT_GIT) <==> EndsWith(repo, DOT_GIT)
  {
    var url := RepositoryUrl(owner, repo);
    var front := GITHUB + owner + ['/'];
    assert url == front + repo;
    if |repo| >= |DOT_GIT| {
      assert url[|url| - |DOT_GIT|..] == repo[|repo| - |DOT_GIT|..];
    } else {
      assert url[|url| - |DOT_GIT|..][|DOT_GIT| - 1 - |repo|] == url[|front| - 1] == '/';
    }
  }

  /** Such inputs exist for every repository: the remote of one named with `.git` needs a second `.git`. */
  lemma DotGitIsLostTheSecondTime(owner: string, repo: string)
    requires OwnerOrRepo(owner) && OwnerOrRepo(repo)
    ensures var raw := RepositoryUrl(owner, repo + DOT_GIT) + DOT_GIT;
      && NormalizeRepositoryUrl(Some(raw)) == Some(RepositoryUrl(owner, repo + DOT_GIT))
      && NormalizeRepositoryUrl(NormalizeRepositoryUrl(Some(raw))) == Some(RepositoryUrl(owner, repo))
  {
    var named := repo + DOT_GIT;
    var raw := RepositoryUrl(owner, named) + DOT_GIT;
    NamedWithDotGit(repo);
    assert raw == GITHUB + (owner + ['/'] + (named + DOT_GIT));
    RemoteSpellings(GITHUB, owner, named, DOT_GIT, raw);
    ParsePrinted(owner, named);
  }

  lemma NamedWithDotGit(repo: string)
    requires OwnerOrRepo(repo)
    ensures OwnerOrRepo(repo + DOT_GIT) && WithoutDotGit(repo + DOT_GIT) == repo
  {
    var named := repo + DOT_GIT;
    assert named[|named| - |DOT_GIT|..] == DOT_GIT && named[..|named| - |DOT_GIT|] == repo;
  }

  /** What may follow the repo name in a remote. */
  predicate RepoEnding(repo: string, ending: string) {
    ending == DOT_GIT || ending == ".git/" || ((ending == "" || ending == "/") && !EndsWith(repo, DOT_GIT))
  }

  lemma {:induction false} EndingStripped(repo: string)
    requires OwnerOrRepo(repo)
    ensures RepoName(repo + DOT_GIT) == Some(repo) && RepoName(repo + ".git/") == Some(repo)
    ensures RepoName(repo + "/") == Some(WithoutDotGit(repo)) && RepoName(repo) == Some(WithoutDotGit(repo))
  {
    var t := repo + DOT_GIT;
    NameOfRepo(repo);
    assert EndsWith(t, DOT_GIT) && t[..|t| - |DOT_GIT|] == repo;
    assert !EndsWith(t, "/") by { EndingOf(t, "/"); }
    assert repo + ".git/" == t + "/";
    assert EndsWith(t + "/", "/") && (t + "/")[..|t|] == t;
    assert EndsWith(repo + "/", "/") && (repo + "/")[..|repo|] == repo;
    assert repo[|repo| - 1] in repo;
    assert !EndsWith(repo, "/") by { EndingOf(repo, "/"); }
  }

  lemma EndingApplied(repo: string, ending: string)
    requires OwnerOrRepo(repo) && RepoEnding(repo, ending)
    ensures RepoName(repo + ending) == Some(repo)
  {
    EndingStripped(repo);
    assert repo + "" == repo;
  }

  /** What is left of a tail once its slash is gone. */
  lemma DotGitFound(t: string, repo: string) returns (ending: string)
    requires OwnerOrRepo(repo)
    requires repo == if EndsWith(t, DOT_GIT) && |t| > |DOT_GIT| then t[..|t| - |DOT_GIT|] else t
    ensures t == repo + ending
    ensures ending == DOT_GIT || (ending == "" && !EndsWith(repo, DOT_GIT))
  {
    if EndsWith(t, DOT_GIT) && |t| > |DOT_GIT| {
      ending := DOT_GIT;
    } else {
      ending := "";
      if EndsWith(repo, DOT_GIT) { NoBareDotGit(repo); }
    }
  }

  lemma EndingFound(tail: string, repo: string) returns (ending: string)
    requires OwnerOrRepo(repo) && RepoName(tail) == Some(repo)
    ensures RepoEnding(repo, ending) && tail == repo + ending
  {
    if EndsWith(tail, "/") {
      var t := tail[..|tail| - 1];
      var e := DotGitFound(t, repo);
      ending := e + "/";
      assert tail == t + "/";
    } else {
      ending := DotGitFound(tail, repo);
    }
  }

  /** The repo name read off a tail is what stands in front of an ending, and nothing else. */
  lemma {:induction false} RepoNameMeans(tail: string, repo: string)
    requires OwnerOrRepo(repo)
    ensures RepoName(tail) == Some(repo) <==> exists ending :: RepoEnding(repo, ending) && tail == repo + ending
  {
    if RepoName(tail) == Some(repo) {
      var ending := EndingFound(tail, repo);
    }
    if ending :| RepoEnding(repo, ending) && tail == repo + ending {
      EndingApplied(repo, ending);
    }
  }

  lemma NoBareDotGit(repo: string)
    requires OwnerOrRepo(repo) && EndsWith(repo, DOT_GIT)
    ensures |repo| > |DOT_GIT|
  {
    EndingOf(repo, DOT_GIT);
  }

  predicate RemotePrefix(prefix: string) {
    prefix in [GITHUB, "http://github.com/", "git@github.com:", "ssh://git@github.com/"]
  }

  lemma OneRemotePath(prefix: string, rest: string)
    requires RemotePrefix(prefix)
    ensures RemotePath(prefix + rest) == Some(rest)
  {
    AfterPrefix(prefix, rest);
    var value := prefix + rest;
    assert value[..|prefix|] == prefix;
    assert prefix[4] == 's' || prefix[4] == ':' || prefix[4] == 'g' || prefix[3] == ':';
    assert GITHUB <= value ==> value[4] == GITHUB[4] && value[0] == GITHUB[0];
    assert "http://github.com/" <= value ==> value[4] == "http://github.com/"[4] && value[0] == 'h';
    assert "git@github.com:" <= value ==> value[0] == 'g';
  }

  lemma OwnerThenTail(owner: string, repo: string, tail: string)
    requires OwnerOrRepo(owner) && OwnerOrRepo(repo) && RepoName(tail) == Some(repo)
    ensures OwnerAndRepo(owner + ['/'] + tail) == Some((owner, repo))
  {
    SplitAtJoined('/', owner, tail);
  }

  lemma TailIsTrimmed(repo: string, ending: string)
    requires OwnerOrRepo(repo) && RepoEnding(repo, ending)
    ensures repo + ending != "" && !IsSpace((repo + ending)[|repo + ending| - 1])
  {
    var tail := repo + ending;
    assert ending == "" ==> tail == repo;
    assert ending != "" ==> tail[|tail| - 1] == ending[|ending| - 1];
  }

  /** Every spelling of a remote gives the repository it names. */
  lemma RemoteSpellings(prefix: string, owner: string, repo: string, ending: string, raw: string)
    requires RemotePrefix(prefix) && OwnerOrRepo(owner) && OwnerOrRepo(repo) && RepoEnding(repo, ending)
    requires raw == prefix + (owner + ['/'] + (repo + ending))
    ensures NormalizeRepositoryUrl(Some(raw)) == Some(RepositoryUrl(owner, repo))
  {
    SpellingParses(prefix, owner, repo, ending);
  }

  /** A name: a letter or digit, then letters, digits, dots, underscores and hyphens. */
  predicate Named(name: string) {
    && name != "" && name[0] != '.' && name[0] != '_' && name[0] != '-'
    && forall i :: 0 <= i < |name| ==>
         || 'A' <= name[i] <= 'Z' || 'a' <= name[i] <= 'z' || '0' <= name[i] <= '9'
         || name[i] == '.' || name[i] == '_' || name[i] == '-'
  }

  lemma NamesAre(name: string)
    ensures OwnerOrRepo(name) <==> Named(name)
  {
  }

  /** The spelling of a remote: one of four prefixes, the owner, a slash, the repo and an ending. */
  ghost predicate Spells(value: string, owner: string, repo: string) {
    exists prefix, ending ::
      && prefix in ["https://github.com/", "http://github.com/", "git@github.com:", "ssh://git@github.com/"]
      && (ending in [".git", ".git/"] || (ending in ["", "/"] && !EndsWith(repo, ".git")))
      && value == prefix + (owner + ['/'] + (repo + ending))
  }

  /** And nothing else is accepted: no other host, no further segment, no other character in a name. */
  lemma {:induction false} AcceptedRemotes(raw: string, owner: string, repo: string)
    ensures ParseRepository(Some(raw)) == Some((owner, repo))
       <==> Named(owner) && Named(repo) && Spells(Trim(raw), owner, repo)
  {
    NamesAre(owner);
    NamesAre(repo);
    if OwnerOrRepo(owner) && OwnerOrRepo(repo) && Spells(Trim(raw), owner, repo) {
      var prefix, ending :|
        && prefix in ["https://github.com/", "http://github.com/", "git@github.com:", "ssh://git@github.com/"]
        && (ending in [".git", ".git/"] || (ending in ["", "/"] && !EndsWith(repo, ".git")))
        && Trim(raw) == prefix + (owner + ['/'] + (repo + ending));
      SpellingParses(prefix, owner, repo, ending);
      TrimmedTrims(raw);
    }
    if ParseRepository(Some(raw)) == Some((owner, repo)) {
      var value := Trim(raw);
      var prefix, rest := RemoteFound(value);
      var ending := OwnerFound(rest, owner, repo);
      assert value == prefix + (owner + ['/'] + (repo + ending));
    }
  }

  lemma TrimmedTrims(raw: string)
    ensures Trim(raw) != "" ==> Trimmed(Some(raw)) == Some(Trim(raw)) == Trimmed(Some(Trim(raw)))
  {
    TrimTrimmed(Trim(raw));
  }

  lemma SpellingParses(prefix: string, owner: string, repo: string, ending: string)
    requires RemotePrefix(prefix) && OwnerOrRepo(owner) && OwnerOrRepo(repo) && RepoEnding(repo, ending)
    ensures var value := prefix + (owner + ['/'] + (repo + ending));
      value != "" && ParseRepository(Some(value)) == Some((owner, repo))
  {
    var tail := repo + ending;
    var rest := owner + ['/'] + tail;
    OneRemotePath(prefix, rest);
    EndingApplied(repo, ending);
    OwnerThenTail(owner, repo, tail);
    TailIsTrimmed(repo, ending);
    assert rest[|rest| - 1] == tail[|tail| - 1];
    RemoteIsTrimmed(prefix, rest);
  }

  lemma RemoteFound(value: string) returns (prefix: string, rest: string)
    requires RemotePath(value).Some?
    ensures RemotePrefix(prefix) && value == prefix + rest && RemotePath(value) == Some(rest)
  {
    prefix :=
      if GITHUB <= value then GITHUB
      else if "http://github.com/" <= value then "http://github.com/"
      else if "git@github.com:" <= value then "git@github.com:"
      else "ssh://git@github.com/";
    rest := value[|prefix|..];
    assert value == prefix + rest;
  }

  lemma CutAtSlash(rest: string) returns (owner: string, tail: string)
    requires SplitAt('/', rest).1.Some?
    ensures SplitAt('/', rest) == (owner, Some(tail)) && rest == owner + ['/'] + tail
  {
    var i := IndexOf('/', rest);
    owner, tail := rest[..i], rest[i + 1..];
  }

  lemma OwnerFound(rest: string, owner: string, repo: string) returns (ending: string)
    requires OwnerAndRepo(rest) == Some((owner, repo))
    ensures OwnerOrRepo(owner) && OwnerOrRepo(repo) && RepoEnding(repo, ending)
    ensures rest == owner + ['/'] + (repo + ending)
  {
    var front, tail := CutAtSlash(rest);
    ending := EndingFound(tail, repo);
  }

  lemma RemoteIsTrimmed(prefix: string, rest: string)
    requires RemotePrefix(prefix) && rest != "" && !IsSpace(rest[|rest| - 1])
    ensures Trimmed(Some(prefix + rest)) == Some(prefix + rest)
  {
    var value := prefix + rest;
    assert value[0] == prefix[0] && value[|value| - 1] == rest[|rest| - 1];
    TrimTrimmed(value);
  }

  // ----------------------------------------------------------------------------------------
  // Permalinks
  // ----------------------------------------------------------------------------------------

  /** A location is checked again before it goes into a URL. */
  function Renormalized(source: SourceLocation): Option<SourceLocation> {
    NormalizeSourceLocation(SourceLocationInput(source.functionName, Some(source.filePath), source.line))
  }

  function BuildGithubSourceUrl(context: SourceContext, source: SourceLocation): Option<string> {
    var base := NormalizeRepositoryUrl(context.repositoryUrl);
    var sha := Trimmed(context.releaseSha);
    if base.None? then None
    else if sha.None? || sha.value == "unknown" || !IsSha(sha.value) then None
    else
      match Renormalized(source)
      case None => None
      case Some(normalized) =>
        var path := Join('/', EncodeAll(Split('/', normalized.filePath)));
        var fragment := match normalized.line case None => "" case Some(line) => "#L" + Print(line);
        Some(base.value + "/blob/" + sha.value + "/" + path + fragment)
  }

  /** What a permalink says. */
  datatype Permalink = Permalink(owner: string, repo: string, sha: string, path: seq<string>, line: Option<string>)

  function ReadLocation(location: string): Option<Permalink> {
    match After(GITHUB, location)
    case None => None
    case Some(rest) => LinkOf(Split('/', rest))
  }

  function LinkOf(parts: seq<string>): Option<Permalink> {
    if |parts| < 5 || parts[2] != "blob" then None
    else
      match DecodeAll(parts[4..])
      case None => None
      case Some(path) => Some(Permalink(parts[0], parts[1], parts[3], path, None))
  }

  /** Splits a permalink at `#` and `/` and percent-decodes the path. */
  function ReadPermalink(url: string): Option<Permalink> {
    var (location, fragment) := SplitAt('#', url);
    match ReadLocation(location)
    case None => None
    case Some(link) =>
      match fragment
      case None => Some(link)
      case Some(text) => if "L" <= text then Some(link.(line := Some(text[1..]))) else None
  }

  lemma NamesArePlain(s: string)
    requires OwnerOrRepo(s) || IsSha(s)
    ensures '/' !in s && '#' !in s
  {
  }

  lemma LocationText(owner: string, repo: string, sha: string, encoded: seq<string>)
    requires encoded != []
    ensures RepositoryUrl(owner, repo) + "/blob/" + sha + "/" + Join('/', encoded)
         == GITHUB + Join('/', [owner, repo, "blob", sha] + encoded)
  {
    var parts := [owner, repo, "blob", sha] + encoded;
    var path := Join('/', encoded);
    assert parts[4..] == encoded && parts[3..][1..] == parts[4..];
    assert parts[2..][1..] == parts[3..] && parts[1..][1..] == parts[2..];
    assert Join('/', parts[3..]) == sha + ['/'] + path;
    assert Join('/', parts[2..]) == "blob" + ['/'] + Join('/', parts[3..]);
    assert Join('/', parts[1..]) == repo + ['/'] + Join('/', parts[2..]);
    assert Join('/', parts) == owner + ['/'] + Join('/', parts[1..]);
    assert "/blob/" == ['/'] + "blob" + ['/'] && "/" == ['/'];
  }

  lemma LocationParts(owner: string, repo: string, sha: string, segments: seq<string>)
    requires OwnerOrRepo(owner) && OwnerOrRepo(repo) && IsSha(sha) && segments != []
    ensures var parts := [owner, repo, "blob", sha] + EncodeAll(segments);
      && '#' !in Join('/', parts)
      && Split('/', Join('/', parts)) == parts
      && LinkOf(parts) == Some(Permalink(owner, repo, sha, segments, None))
  {
    var parts := [owner, repo, "blob", sha] + EncodeAll(segments);
    EncodedSegments(segments);
    NamesArePlain(owner);
    NamesArePlain(repo);
    NamesArePlain(sha);
    forall i | 0 <= i < |parts| ensures '/' !in parts[i] && '#' !in parts[i] {
      if i >= 4 {
        assert parts[i] == EncodeAll(segments)[i - 4];
        PlainHoldsNo(segments[i - 4], '#');
      }
    }
    SplitOfJoin('/', parts);
    JoinHoldsNo('#', '/', parts);
    assert parts[4..] == EncodeAll(segments);
  }

  /** Reading back the part of a permalink in front of the fragment. */
  lemma LocationReadsBack(owner: string, repo: string, sha: string, segments: seq<string>, location: string)
    requires OwnerOrRepo(owner) && OwnerOrRepo(repo) && IsSha(sha) && segments != []
    requires location == RepositoryUrl(owner, repo) + "/blob/" + sha + "/" + Join('/', EncodeAll(segments))
    ensures '#' !in location
    ensures ReadLocation(location) == Some(Permalink(owner, repo, sha, segments, None))
  {
    LocationText(owner, repo, sha, EncodeAll(segments));
    LocationParts(owner, repo, sha, segments);
    ReadParts([owner, repo, "blob", sha] + EncodeAll(segments), location);
  }

  lemma ReadParts(parts: seq<string>, location: string)
    requires location == GITHUB + Join('/', parts) && Split('/', Join('/', parts)) == parts
    requires '#' !in Join('/', parts)
    ensures '#' !in location && ReadLocation(location) == LinkOf(parts)
  {
    AfterPrefix(GITHUB, Join('/', parts));
  }

  /** A release that can be linked to: 7 to 40 hexadecimal digits. */
  predicate ReleaseSha(sha: string) {
    && 7 <= |sha| <= 40 && sha != "unknown"
    && forall i :: 0 <= i < |sha| ==> '0' <= sha[i] <= '9' || 'a' <= sha[i] <= 'f' || 'A' <= sha[i] <= 'F'
  }

  function FragmentText(line: Option<Number>): string {
    if line.Some? then "#L" + Print(line.value) else ""
  }

  /** When there is a permalink, and how it reads. */
  lemma PermalinkText(context: SourceContext, source: SourceLocation)
    ensures var url := BuildGithubSourceUrl(context, source);
      var sha := if context.releaseSha.Some? then Trim(context.releaseSha.value) else "";
      && (url.Some? <==> ParseRepository(context.repositoryUrl).Some? && ReleaseSha(sha) && Renormalized(source).Some?)
      && (url.Some? ==>
            var (owner, repo) := ParseRepository(context.repositoryUrl).value;
            var location := Renormalized(source).value;
            url.value == "https://github.com/" + owner + ['/'] + repo + "/blob/" + sha + "/"
                         + Join('/', EncodeAll(Split('/', location.filePath))) + FragmentText(location.line))
  {
    if context.releaseSha.Some? { ShaIsRelease(Trim(context.releaseSha.value)); }
  }

  lemma ShaIsRelease(sha: string)
    ensures sha != "" && sha != "unknown" && IsSha(sha) <==> ReleaseSha(sha)
  {
  }

  /** A permalink, split and percent-decoded, gives back exactly the owner, the repo, the release, the
      segments of the file and the line if there is one; and none is built from a bad path, an
      unknown release or a foreign repository. */
  lemma PermalinkReadsBack(context: SourceContext, source: SourceLocation)
    ensures var location := Renormalized(source);
      var sha := Trimmed(context.releaseSha);
      match BuildGithubSourceUrl(context, source)
      case None =>
        || ParseRepository(context.repositoryUrl).None?
        || sha.None? || sha.value == "unknown" || !IsSha(sha.value) || location.None?
      case Some(url) =>
        && ParseRepository(context.repositoryUrl).Some? && sha.Some? && location.Some?
        && var (owner, repo) := ParseRepository(context.repositoryUrl).value;
           ReadPermalink(url) == Some(Permalink(owner, repo, sha.value, Split('/', location.value.filePath),
             match location.value.line case None => None case Some(line) => Some(Print(line))))
  {
    match BuildGithubSourceUrl(context, source)
    case None =>
    case Some(url) =>
      var location := Renormalized(source).value;
      var sha := Trimmed(context.releaseSha).value;
      var (owner, repo) := ParseRepository(context.repositoryUrl).value;
      ParsedNames(context.repositoryUrl);
      ReadBack(owner, repo, sha, Split('/', location.filePath), location.line, url);
  }

  lemma ReadBack(owner: string, repo: string, sha: string, segments: seq<string>, line: Option<Number>, url: string)
    requires OwnerOrRepo(owner) && OwnerOrRepo(repo) && IsSha(sha) && segments != []
    requires url == RepositoryUrl(owner, repo) + "/blob/" + sha + "/" + Join('/', EncodeAll(segments))
                    + (match line case None => "" case Some(x) => "#L" + Print(x))
    ensures ReadPermalink(url) == Some(Permalink(owner, repo, sha, segments,
              match line case None => None case Some(x) => Some(Print(x))))
  {
    var location := RepositoryUrl(owner, repo) + "/blob/" + sha + "/" + Join('/', EncodeAll(segments));
    LocationReadsBack(owner, repo, sha, segments, location);
    match line {
      case None =>
        assert url == location;
        SplitAtWhole('#', url);
      case Some(x) =>
        AfterPrefix("L", Print(x));
        WithFragment(location, Print(x), url);
    }
  }

  lemma WithFragment(location: string, number: string, url: string)
    requires '#' !in location && url == location + ("#L" + number)
    ensures SplitAt('#', url) == (location, Some("L" + number))
  {
    assert url == location + ['#'] + ("L" + number);
    SplitAtJoined('#', location, "L" + number);
  }
}

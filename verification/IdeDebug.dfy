/** The URI that opens a file of the repository in an editor (apps/web/lib/ide-debug.ts). */
module IdeDebug {
  import opened Sequences
  import opened JsText
  import opened NumberText
  import opened Percent
  import opened SourceLocation

  datatype Ide = VsCode | VsCodeInsiders | Cursor

  datatype IdeSourceInput = IdeSourceInput(workspaceRoot: string, filePath: string, line: Option<Number>, ide: Option<Ide>)

  datatype Rejection = MissingRoot | InvalidRoot | InvalidSourcePath

  function SchemeOf(ide: Option<Ide>): string {
    match ide
    case Some(VsCodeInsiders) => "vscode-insiders"
    case Some(Cursor) => "cursor"
    case _ => "vscode"
  }

  predicate Letter(c: char) {
    'A' <= c <= 'Z' || 'a' <= c <= 'z'
  }

  /** `/^[A-Za-z]:[\\/]/` */
  predicate WindowsRoot(s: string) {
    |s| >= 3 && Letter(s[0]) && s[1] == ':' && (s[2] == '\\' || s[2] == '/')
  }

  /** `/^[A-Za-z]:$/` */
  predicate DriveSegment(s: string) {
    |s| == 2 && Letter(s[0]) && s[1] == ':'
  }

  /** `None` when the input can be opened, otherwise why not. */
  function ValidateIdeSourceInput(workspaceRoot: string, filePath: string): Option<Rejection> {
    var root := Trim(workspaceRoot);
    if root == "" then Some(MissingRoot)
    else if !WindowsRoot(root) && !("/" <= root) then Some(InvalidRoot)
    else if NormalizeSourceLocation(SourceLocationInput(None, Some(filePath), None)).None? then Some(InvalidSourcePath)
    else None
  }

  function EncodeSegment(segment: string): string {
    if DriveSegment(segment) then segment else EncodeURIComponent(segment)
  }

  /** `s.replace(/\\/g, '/')` */
  function Slashes(s: string): string {
    if s == "" then "" else [if s[0] == '\\' then '/' else s[0]] + Slashes(s[1..])
  }

  /** `s.replace(/\/+$/, '')` */
  function WithoutTrailingSlashes(s: string): string {
    if s != "" && s[|s| - 1] == '/' then WithoutTrailingSlashes(s[..|s| - 1]) else s
  }

  function RootSegments(workspaceRoot: string): (segments: seq<string>)
    ensures segments != []
  {
    Split('/', WithoutTrailingSlashes(Slashes(Trim(workspaceRoot))))
  }

  function EncodeSegments(segments: seq<string>): (encoded: seq<string>)
    ensures |encoded| == |segments|
    ensures forall i :: 0 <= i < |segments| ==> encoded[i] == EncodeSegment(segments[i])
  {
    if segments == [] then [] else [EncodeSegment(segments[0])] + EncodeSegments(segments[1..])
  }

  function BuildEditorFileUri(input: IdeSourceInput): Option<string> {
    if ValidateIdeSourceInput(input.workspaceRoot, input.filePath).Some? then None
    else
      match NormalizeSourceLocation(SourceLocationInput(None, Some(input.filePath), input.line))
      case None => None
      case Some(source) =>
        var segments := RootSegments(input.workspaceRoot) + Split('/', source.filePath);
        Some(EditorUri(SchemeOf(input.ide), UriBody(segments, source.line)))
  }

  function EditorUri(scheme: string, body: string): string {
    scheme + "://file/" + body
  }

  function UriBody(segments: seq<string>, line: Option<Number>): string {
    Join('/', EncodeSegments(segments)) + PositionText(line)
  }

  // ----------------------------------------------------------------------------------------
  // Reading the URI back
  // ----------------------------------------------------------------------------------------

  datatype Target = Target(scheme: string, segments: seq<string>, line: Option<string>)

  const FILE := "//file/"

  /** Splits at `://file/`, then at `/`, takes the line off the last segment, and percent-decodes. */
  function ReadEditorUri(uri: string): Option<Target> {
    var (scheme, rest) := SplitAt(':', uri);
    if rest.None? then None
    else
      match After(FILE, rest.value)
      case None => None
      case Some(body) =>
        match ReadBody(Split('/', body))
        case None => None
        case Some((segments, line)) => Some(Target(scheme, segments, line))
  }

  function ReadBody(parts: seq<string>): Option<(seq<string>, Option<string>)>
    requires parts != []
  {
    ReadLast(parts[..|parts| - 1], parts[|parts| - 1])
  }

  function ReadLast(front: seq<string>, last: string): Option<(seq<string>, Option<string>)> {
    var (name, line) := SplitAt(':', last);
    match DecodeAll(front + [name])
    case None => None
    case Some(segments) => Some((segments, line))
  }

  lemma DriveDecodes(letter: char)
    requires Letter(letter)
    ensures DecodeURIComponent([letter, ':']) == Some([letter, ':'])
  {
    assert DecodeURIComponent("") == Some("");
    assert DecodeURIComponent([':']) == Prepend(':', DecodeURIComponent([':'][1..]));
    assert [letter, ':'][1..] == [':'];
    assert [letter] + ([':'] + "") == [letter, ':'];
  }

  lemma SegmentDecodes(segment: string)
    requires '/' !in segment
    ensures DecodeURIComponent(EncodeSegment(segment)) == Some(segment)
    ensures '/' !in EncodeSegment(segment)
    ensures ':' !in segment ==> ':' !in EncodeSegment(segment)
  {
    if DriveSegment(segment) {
      DriveDecodes(segment[0]);
      assert segment == [segment[0], ':'];
    } else {
      DecodeEncode(segment);
      PlainHoldsNo(segment, '/');
      PlainHoldsNo(segment, ':');
    }
  }

  function PositionText(line: Option<Number>): string {
    match line
    case None => ""
    case Some(x) => ":" + Print(x)
  }

  function LineText(line: Option<Number>): Option<string> {
    match line
    case None => None
    case Some(x) => Some(Print(x))
  }

  lemma LastPartReads(name: string, line: Option<Number>)
    requires ':' !in name && (line.Some? ==> line.value.Finite?)
    ensures SplitAt(':', name + PositionText(line))
         == (name, LineText(line))
    ensures '/' !in PositionText(line)
  {
    match line {
      case None =>
        assert name + "" == name;
        SplitAtWhole(':', name);
      case Some(x) =>
        PrintIsPlain(x, '/');
        assert name + (":" + Print(x)) == name + [':'] + Print(x);
        SplitAtJoined(':', name, Print(x));
    }
  }

  lemma EncodedDecode(segments: seq<string>)
    requires segments != [] && Joinable('/', segments)
    requires ':' !in segments[|segments| - 1]
    ensures Joinable('/', EncodeSegments(segments))
    ensures DecodeAll(EncodeSegments(segments)) == Some(segments)
    ensures ':' !in EncodeSegments(segments)[|segments| - 1]
  {
    var encoded := EncodeSegments(segments);
    forall i | 0 <= i < |segments|
      ensures DecodeURIComponent(encoded[i]) == Some(segments[i]) && '/' !in encoded[i]
    {
      SegmentDecodes(segments[i]);
    }
    SegmentDecodes(segments[|segments| - 1]);
    DecodeEncodedAll(segments, encoded);
  }

  lemma LastReads(segments: seq<string>, front: seq<string>, last: string, name: string, line: Option<string>)
    requires SplitAt(':', last) == (name, line) && DecodeAll(front + [name]) == Some(segments)
    ensures ReadLast(front, last) == Some((segments, line))
  {
  }

  lemma PartsRead(segments: seq<string>, encoded: seq<string>, line: Option<string>, parts: seq<string>)
    requires encoded != [] && DecodeAll(encoded) == Some(segments)
    requires |parts| == |encoded| && parts[..|parts| - 1] == encoded[..|parts| - 1]
    requires SplitAt(':', parts[|parts| - 1]) == (encoded[|parts| - 1], line)
    ensures ReadBody(parts) == Some((segments, line))
  {
    var front, name := parts[..|parts| - 1], encoded[|parts| - 1];
    assert front + [name] == encoded;
    LastReads(segments, front, parts[|parts| - 1], name, line);
  }

  lemma FrameReads(scheme: string, body: string)
    requires ':' !in scheme
    ensures SplitAt(':', EditorUri(scheme, body)) == (scheme, Some(FILE + body))
    ensures After(FILE, FILE + body) == Some(body)
  {
    assert EditorUri(scheme, body) == scheme + [':'] + (FILE + body);
    SplitAtJoined(':', scheme, FILE + body);
    AfterPrefix(FILE, body);
  }

  lemma SlashesLeaveSegments(workspaceRoot: string)
    ensures Joinable('/', RootSegments(workspaceRoot))
  {
    SplitParts('/', WithoutTrailingSlashes(Slashes(Trim(workspaceRoot))));
  }

  lemma AcceptedSegments(path: string)
    requires IsRepoRelativePath(path)
    ensures Joinable('/', Split('/', path))
    ensures forall i :: 0 <= i < |Split('/', path)| ==> ProperSegment(Split('/', path)[i]) && ':' !in Split('/', path)[i]
  {
    SplitParts('/', path);
    forall i | 0 <= i < |Split('/', path)| ensures ':' !in Split('/', path)[i] {
      PartOfJoin('/', Split('/', path), i);
    }
  }

  function AcceptedLine(line: Option<Number>): Option<Number> {
    if line.Some? && UsableLine(line.value) then line else None
  }

  function TargetSegments(input: IdeSourceInput): (segments: seq<string>)
    ensures segments != []
  {
    RootSegments(input.workspaceRoot) + Split('/', Trim(input.filePath))
  }

  lemma UriOf(input: IdeSourceInput)
    ensures ValidateIdeSourceInput(input.workspaceRoot, input.filePath).Some? ==> BuildEditorFileUri(input).None?
    ensures ValidateIdeSourceInput(input.workspaceRoot, input.filePath).None? ==>
      && IsRepoRelativePath(Trim(input.filePath))
      && BuildEditorFileUri(input)
         == Some(EditorUri(SchemeOf(input.ide), UriBody(TargetSegments(input), AcceptedLine(input.line))))
  {
  }

  lemma TargetIsJoinable(input: IdeSourceInput)
    requires IsRepoRelativePath(Trim(input.filePath))
    ensures Joinable('/', TargetSegments(input)) && ':' !in TargetSegments(input)[|TargetSegments(input)| - 1]
  {
    SlashesLeaveSegments(input.workspaceRoot);
    AcceptedSegments(Trim(input.filePath));
  }

  lemma SchemeHoldsNoColon(ide: Option<Ide>)
    ensures ':' !in SchemeOf(ide)
  {
  }

  function TargetOf(input: IdeSourceInput): Target {
    Target(SchemeOf(input.ide), TargetSegments(input), LineText(AcceptedLine(input.line)))
  }

  lemma ValidReadsBack(input: IdeSourceInput)
    requires IsRepoRelativePath(Trim(input.filePath))
    ensures ReadEditorUri(EditorUri(SchemeOf(input.ide), UriBody(TargetSegments(input), AcceptedLine(input.line))))
         == Some(TargetOf(input))
  {
    TargetIsJoinable(input);
    SchemeHoldsNoColon(input.ide);
    ReadTarget(SchemeOf(input.ide), TargetSegments(input), AcceptedLine(input.line));
  }

  lemma UriReadsTarget(input: IdeSourceInput)
    ensures BuildEditorFileUri(input).Some? <==> ValidateIdeSourceInput(input.workspaceRoot, input.filePath).None?
    ensures BuildEditorFileUri(input).Some? ==> ReadEditorUri(BuildEditorFileUri(input).value) == Some(TargetOf(input))
  {
    UriOf(input);
    if BuildEditorFileUri(input).Some? { ValidReadsBack(input); }
  }

  /** An absolute path: from the root, or a drive letter, a colon and a slash of either kind. */
  predicate AbsolutePath(root: string) {
    || (root != "" && root[0] == '/')
    || (|root| >= 3 && ('A' <= root[0] <= 'Z' || 'a' <= root[0] <= 'z') && root[1] == ':'
        && (root[2] == '/' || root[2] == '\\'))
  }

  /** Why an input is refused: no root, a root that is not absolute, a bad file path, in this order. */
  lemma RefusedInputs(workspaceRoot: string, filePath: string)
    ensures ValidateIdeSourceInput(workspaceRoot, filePath)
         == if Trim(workspaceRoot) == "" then Some(MissingRoot)
            else if !AbsolutePath(Trim(workspaceRoot)) then Some(InvalidRoot)
            else if !IsRepoRelativePath(Trim(filePath)) then Some(InvalidSourcePath)
            else None
  {
    var root := Trim(workspaceRoot);
    assert AbsolutePath(root) <==> WindowsRoot(root) || "/" <= root;
    assert !ProperSegment(Split('/', "")[0]);
    NormalizedLocation(SourceLocationInput(None, Some(filePath), None));
  }

  /** The segments spell the root typed: joined by slashes they are that root, character by character,
      every backslash read as a slash, less the slashes at its end and nothing else. */
  ghost predicate ReadsRoot(segments: seq<string>, root: string) {
    var joined := Join('/', segments);
    && segments != [] && |joined| <= |root|
    && (forall i :: 0 <= i < |joined| ==> joined[i] == if root[i] == '\\' then '/' else root[i])
    && (forall i :: |joined| <= i < |root| ==> root[i] == '/' || root[i] == '\\')
    && (joined == "" || joined[|joined| - 1] != '/')
    && (forall k :: 0 <= k < |segments| ==> '/' !in segments[k] && '\\' !in segments[k])
  }

  lemma {:induction false} SlashesOnly(s: string)
    ensures |Slashes(s)| == |s|
    ensures forall i :: 0 <= i < |s| ==> Slashes(s)[i] == if s[i] == '\\' then '/' else s[i]
  {
    if s != "" { SlashesOnly(s[1..]); }
  }

  lemma {:induction false} TrailingSlashesOnly(s: string)
    ensures WithoutTrailingSlashes(s) <= s
    ensures forall i :: |WithoutTrailingSlashes(s)| <= i < |s| ==> s[i] == '/'
    ensures var t := WithoutTrailingSlashes(s); t == "" || t[|t| - 1] != '/'
    decreases |s|
  {
    if s != "" && s[|s| - 1] == '/' { TrailingSlashesOnly(s[..|s| - 1]); }
  }

  lemma RootSegmentsReadTheRoot(workspaceRoot: string)
    ensures ReadsRoot(RootSegments(workspaceRoot), Trim(workspaceRoot))
  {
    var root := Trim(workspaceRoot);
    var joined := WithoutTrailingSlashes(Slashes(root));
    var segments := Split('/', joined);
    SlashesOnly(root);
    TrailingSlashesOnly(Slashes(root));
    SplitParts('/', joined);
    forall k | 0 <= k < |segments| ensures '\\' !in segments[k] {
      PartOfJoin('/', segments, k);
    }
  }

  /** A Windows root starts with its drive, a POSIX root with an empty segment. */
  lemma RootStartsWithItsDrive(segments: seq<string>, root: string)
    requires ReadsRoot(segments, root) && AbsolutePath(root)
    ensures root[0] == '/' ==> segments[0] == ""
    ensures root[0] != '/' ==> segments[0] == root[..2]
  {
    var joined := Join('/', segments);
    if root[0] != '/' {
      assert |joined| >= 2;
      if |segments| == 1 {
        assert segments == [joined];
        assert |joined| == 2;
        assert joined == root[..2];
      } else {
        var rest := Join('/', segments[1..]);
        assert joined == segments[0] + ['/'] + rest;
        assert joined[|segments[0]|] == '/';
        DriveIsFirst(segments[0], joined, root);
      }
    } else {
      assert joined == "" || joined[0] == '/';
      if segments[0] != "" { FirstCharacter(segments, joined); }
    }
  }

  lemma FirstCharacter(segments: seq<string>, joined: string)
    requires segments != [] && joined == Join('/', segments) && segments[0] != ""
    ensures joined != "" && joined[0] in segments[0]
  {
  }

  lemma DriveIsFirst(first: string, joined: string, root: string)
    requires |root| >= 3 && root[0] != '/' && root[0] != '\\' && root[1] == ':' && (root[2] == '/' || root[2] == '\\')
    requires first <= joined && |first| < |joined| <= |root| && joined[|first|] == '/' && '/' !in first
    requires forall i :: 0 <= i < |joined| ==> joined[i] == if root[i] == '\\' then '/' else root[i]
    ensures first == root[..2]
  {
    var third := if |joined| > 2 then joined[2] else '/';
    assert third == '/' && |first| >= 2;
    forall i | 0 <= i < |first| ensures joined[i] == first[i] && joined[i] != '/' {
      assert first[i] in first;
    }
  }

  /** The segments are those of the root typed, then those of the file. */
  ghost predicate RootThenFile(segments: seq<string>, root: string, file: seq<string>) {
    exists front :: segments == front + file && ReadsRoot(front, root)
  }

  lemma TargetExplained(input: IdeSourceInput)
    ensures var target := TargetOf(input);
      && target.scheme == EditorScheme(input.ide) && target.line == PositiveLine(input.line)
      && RootThenFile(target.segments, Trim(input.workspaceRoot), Split('/', Trim(input.filePath)))
  {
    RootSegmentsReadTheRoot(input.workspaceRoot);
  }

  /** The scheme of an editor, VS Code if none is chosen. */
  function EditorScheme(ide: Option<Ide>): string {
    if ide == Some(Cursor) then "cursor" else if ide == Some(VsCodeInsiders) then "vscode-insiders" else "vscode"
  }

  /** An editor URI comes out exactly for an absolute root and a good file path. Split and percent-decoded,
      it gives back the scheme of the editor, the root as it was typed with the file path behind it, and
      the line if it is a positive integer. */
  lemma EditorUriReadsBack(input: IdeSourceInput)
    ensures var root, path := Trim(input.workspaceRoot), Trim(input.filePath);
      BuildEditorFileUri(input).Some? <==> AbsolutePath(root) && IsRepoRelativePath(path)
    ensures BuildEditorFileUri(input).Some? ==>
      match ReadEditorUri(BuildEditorFileUri(input).value)
      case None => false
      case Some(target) =>
        && target.scheme == EditorScheme(input.ide) && target.line == PositiveLine(input.line)
        && RootThenFile(target.segments, Trim(input.workspaceRoot), Split('/', Trim(input.filePath)))
  {
    UriReadsTarget(input);
    RefusedInputs(input.workspaceRoot, input.filePath);
    TargetExplained(input);
  }

  function SegmentText(segment: string): string {
    if |segment| == 2 && ('A' <= segment[0] <= 'Z' || 'a' <= segment[0] <= 'z') && segment[1] == ':' then segment
    else EncodeURIComponent(segment)
  }

  lemma SegmentTexts(segments: seq<string>, i: nat)
    requires i < |segments|
    ensures EncodeSegments(segments)[i] == SegmentText(segments[i])
  {
  }

  /** How an editor URI reads: every segment percent-encoded on its own, but for a drive. */
  lemma EditorUriText(input: IdeSourceInput)
    requires BuildEditorFileUri(input).Some?
    ensures var segments := TargetSegments(input);
      && RootThenFile(segments, Trim(input.workspaceRoot), Split('/', Trim(input.filePath)))
      && (forall i :: 0 <= i < |segments| ==> EncodeSegments(segments)[i] == SegmentText(segments[i]))
    ensures BuildEditorFileUri(input).value
         == EditorScheme(input.ide) + "://file/"
            + (Join('/', EncodeSegments(TargetSegments(input))) + PositionText(AcceptedLine(input.line)))
    ensures PositionText(AcceptedLine(input.line))
         == if PositiveLine(input.line).Some? then ":" + PositiveLine(input.line).value else ""
  {
    UriOf(input);
    TargetExplained(input);
    forall i | 0 <= i < |TargetSegments(input)|
      ensures EncodeSegments(TargetSegments(input))[i] == SegmentText(TargetSegments(input)[i])
    {
      SegmentTexts(TargetSegments(input), i);
    }
  }

  /** A line number is shown if it is a positive integer. */
  function PositiveLine(line: Option<Number>): Option<string> {
    match line
    case Some(Finite(false, digits, n)) => if |digits| <= n then Some(Print(Finite(false, digits, n))) else None
    case _ => None
  }

  lemma ReadTarget(scheme: string, segments: seq<string>, line: Option<Number>)
    requires ':' !in scheme && (line.Some? ==> line.value.Finite?)
    requires segments != [] && Joinable('/', segments) && ':' !in segments[|segments| - 1]
    ensures ReadEditorUri(EditorUri(scheme, UriBody(segments, line))) == Some(Target(scheme, segments, LineText(line)))
  {
    EncodedDecode(segments);
    BodyReads(segments, EncodeSegments(segments), line, UriBody(segments, line));
    UriReads(scheme, UriBody(segments, line), segments, LineText(line));
  }

  lemma BodyReads(segments: seq<string>, encoded: seq<string>, line: Option<Number>, body: string)
    requires line.Some? ==> line.value.Finite?
    requires encoded != [] && Joinable('/', encoded) && DecodeAll(encoded) == Some(segments)
    requires ':' !in encoded[|encoded| - 1]
    requires body == Join('/', encoded) + PositionText(line)
    ensures ReadBody(Split('/', body)) == Some((segments, LineText(line)))
  {
    LastPartReads(encoded[|encoded| - 1], line);
    SplitOfJoinThen('/', encoded, PositionText(line));
    PartsRead(segments, encoded, LineText(line), WithTail(encoded, PositionText(line)));
  }

  lemma UriReads(scheme: string, body: string, segments: seq<string>, line: Option<string>)
    requires ':' !in scheme && ReadBody(Split('/', body)) == Some((segments, line))
    ensures ReadEditorUri(EditorUri(scheme, body)) == Some(Target(scheme, segments, line))
  {
    FrameReads(scheme, body);
  }

  /** No two targets share a URI. */
  lemma UriDeterminesTarget(a: IdeSourceInput, b: IdeSourceInput)
    requires BuildEditorFileUri(a).Some? && BuildEditorFileUri(a) == BuildEditorFileUri(b)
    ensures SchemeOf(a.ide) == SchemeOf(b.ide) && AcceptedLine(a.line) == AcceptedLine(b.line)
    ensures TargetSegments(a) == TargetSegments(b)
  {
    UriReadsTarget(a);
    UriReadsTarget(b);
    if AcceptedLine(a.line).Some? && AcceptedLine(b.line).Some? {
      PrintIsInjective(AcceptedLine(a.line).value, AcceptedLine(b.line).value);
    }
  }

  // ----------------------------------------------------------------------------------------
  // Staying under the root
  // ----------------------------------------------------------------------------------------

  /** Walking a path the way a file system resolves it: empty and `.` segments stay put, `..` goes up
      (and stays put at the top). */
  function Walk(from: seq<string>, segments: seq<string>): seq<string>
    decreases |segments|
  {
    if segments == [] then from
    else
      var next :=
        if segments[0] == "" || segments[0] == "." then from
        else if segments[0] == ".." then (if from == [] then [] else from[..|from| - 1])
        else from + [segments[0]];
      Walk(next, segments[1..])
  }

  lemma {:induction false} WalkThen(from: seq<string>, s: seq<string>, t: seq<string>)
    ensures Walk(from, s + t) == Walk(Walk(from, s), t)
    decreases |s|
  {
    if s == [] {
      assert s + t == t;
    } else {
      assert (s + t)[1..] == s[1..] + t;
      var next :=
        if s[0] == "" || s[0] == "." then from
        else if s[0] == ".." then (if from == [] then [] else from[..|from| - 1])
        else from + [s[0]];
      WalkThen(next, s[1..], t);
    }
  }

  lemma {:induction false} WalkProper(from: seq<string>, segments: seq<string>)
    requires forall i :: 0 <= i < |segments| ==> ProperSegment(segments[i])
    ensures Walk(from, segments) == from + segments
    decreases |segments|
  {
    if segments == [] {
      assert from + segments == from;
    } else {
      WalkProper(from + [segments[0]], segments[1..]);
      assert from + [segments[0]] + segments[1..] == from + segments;
    }
  }

  /** Whatever the server sends as a file path, the target is the root directory followed by the file's
      own segments: the path never climbs out of the root and never drops a segment. */
  lemma TargetStaysUnderTheRoot(input: IdeSourceInput)
    requires BuildEditorFileUri(input).Some?
    ensures var root, file := RootSegments(input.workspaceRoot), Split('/', Trim(input.filePath));
      && Walk([], root + file) == Walk([], root) + file
      && |file| > 0 && forall i :: 0 <= i < |file| ==> ProperSegment(file[i])
  {
    var root, file := RootSegments(input.workspaceRoot), Split('/', Trim(input.filePath));
    AcceptedSegments(Trim(input.filePath));
    WalkThen([], root, file);
    WalkProper(Walk([], root), file);
  }
}

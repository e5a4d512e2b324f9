/**
  The names a report is kept under (src/pipeline/artifact.rs): the hidden staging
  directory, the artifact names a registry may hold, and the destination recorded
  in a manifest, which a later process resolves back to the same directory.
*/
module ArtifactPaths {
  import opened Wrappers

  const MANIFEST_FILE_NAME := "manifest.json"
  const STAGING_PREFIX := ".report-"
  const STAGING_SUFFIX := ".pending"

  datatype Component = RootDir | CurDir | ParentDir | Normal(name: string) | Undecodable(bytes: seq<nat>)
  type Path = seq<Component>

  datatype Destination = OutputRoot | Sibling(directory: string)

  datatype PathError = NoParent | NotASibling | NoDirectoryName | InvalidComponent

  /** One directory entry: what can stand between two slashes. */
  predicate IsName(s: string) {
    s != "" && s != "." && s != ".." && '/' !in s
  }

  predicate WellFormed(p: Path) {
    forall i :: 0 <= i < |p| && p[i].Normal? ==> IsName(p[i].name)
  }

  function Parent(p: Path): Option<Path> {
    if p == [] || p[|p| - 1].RootDir? then None else Some(p[..|p| - 1])
  }

  function FileName(p: Path): Option<string> {
    if p != [] && p[|p| - 1].Normal? then Some(p[|p| - 1].name) else None
  }

  function Split(s: string): (pieces: seq<string>)
    ensures |pieces| > 0
    ensures forall i :: 0 <= i < |pieces| ==> '/' !in pieces[i]
  {
    if s == "" then [""]
    else if s[0] == '/' then [""] + Split(s[1..])
    else var rest := Split(s[1..]); [[s[0]] + rest[0]] + rest[1..]
  }

  function Pieces(pieces: seq<string>): Path {
    if pieces == [] then []
    else if pieces[0] == "" || pieces[0] == "." then Pieces(pieces[1..])
    else [if pieces[0] == ".." then ParentDir else Normal(pieces[0])] + Pieces(pieces[1..])
  }

  /** The components of a path text; a leading `.` is kept, every other one is dropped. */
  function Components(s: string): Path {
    var pieces := Split(s);
    if s != "" && s[0] == '/' then [RootDir] + Pieces(pieces)
    else if pieces[0] == "." then [CurDir] + Pieces(pieces)
    else Pieces(pieces)
  }

  predicate ValidArtifactName(name: string) {
    name != "" && name != MANIFEST_FILE_NAME && name[0] != '.' && |Components(name)| == 1
  }

  predicate ValidDirectoryComponent(s: string) {
    s != "" && s[0] != '.' && |Components(s)| == 1 && Components(s)[0].Normal?
  }

  function DestinationPolicy(outputRoot: Path, destinationRoot: Path): Result<Destination, PathError> {
    if destinationRoot == outputRoot then Ok(OutputRoot)
    else if Parent(outputRoot).None? then Err(NoParent)
    else if Parent(destinationRoot) != Parent(outputRoot) then Err(NotASibling)
    else if FileName(destinationRoot).None? then Err(NoDirectoryName)
    else if !ValidDirectoryComponent(FileName(destinationRoot).value) then Err(InvalidComponent)
    else Ok(Sibling(FileName(destinationRoot).value))
  }

  function DestinationFromPolicy(outputRoot: Path, destination: Destination): Result<Path, PathError> {
    match destination
    case OutputRoot => Ok(outputRoot)
    case Sibling(directory) =>
      if !ValidDirectoryComponent(directory) then Err(InvalidComponent)
      else if Parent(outputRoot).None? then Err(NoParent)
      else Ok(Parent(outputRoot).value + Components(directory))
  }

  lemma {:induction false} NameIsOnePiece(s: string)
    requires '/' !in s
    ensures Split(s) == [s]
  {
    if s != "" {
      NameIsOnePiece(s[1..]);
      assert Split(s) == [[s[0]] + s[1..]] && [s[0]] + s[1..] == s;
    }
  }

  lemma NameIsOneComponent(s: string)
    requires IsName(s)
    ensures Components(s) == [Normal(s)]
  {
    NameIsOnePiece(s);
    assert Pieces([s]) == [Normal(s)] + Pieces([]);
  }

  /** An entry name that does not start with a dot is a valid directory component. */
  lemma PlainNamesAreValid(s: string)
    requires IsName(s)
    ensures ValidDirectoryComponent(s) <==> s[0] != '.'
    ensures ValidArtifactName(s) <==> s[0] != '.' && s != MANIFEST_FILE_NAME
  {
    NameIsOneComponent(s);
  }

  lemma {:induction false} FirstPieceStarts(s: string)
    requires s != "" && s[0] != '/'
    ensures Split(s)[0] != "" && Split(s)[0][0] == s[0]
  {
    var rest := Split(s[1..]);
    assert Split(s) == [[s[0]] + rest[0]] + rest[1..];
  }

  /** A valid component names one plain entry, though its text may end in slashes. */
  lemma ValidComponentIsAName(s: string)
    requires ValidDirectoryComponent(s)
    ensures IsName(Components(s)[0].name) && Components(s)[0].name[0] == s[0]
  {
    FirstPieceStarts(s);
    var pieces := Split(s);
    assert Pieces(pieces) == [Normal(pieces[0])] + Pieces(pieces[1..]);
  }

  /** What a manifest records is what a later process resolves: the destination survives the round trip. */
  lemma DestinationRoundTrip(outputRoot: Path, destinationRoot: Path)
    requires WellFormed(destinationRoot)
    requires DestinationPolicy(outputRoot, destinationRoot).Ok?
    ensures DestinationFromPolicy(outputRoot, DestinationPolicy(outputRoot, destinationRoot).value) == Ok(destinationRoot)
  {
    if destinationRoot != outputRoot {
      NameIsOneComponent(FileName(destinationRoot).value);
      assert destinationRoot == Parent(destinationRoot).value + [Normal(FileName(destinationRoot).value)];
    }
  }

  /** Exactly the root itself and its plainly named siblings may be recorded. */
  lemma RecordableDestinations(outputRoot: Path, destinationRoot: Path)
    requires WellFormed(destinationRoot)
    ensures DestinationPolicy(outputRoot, destinationRoot).Ok? <==>
            || destinationRoot == outputRoot
            || (&& Parent(outputRoot).Some? && Parent(destinationRoot) == Parent(outputRoot)
                && FileName(destinationRoot).Some? && FileName(destinationRoot).value[0] != '.')
  {
    if FileName(destinationRoot).Some? {
      PlainNamesAreValid(FileName(destinationRoot).value);
    }
  }

  /** Whatever a manifest says, recovery never leaves the root and its siblings. */
  lemma ResolvedIsRecordable(outputRoot: Path, destination: Destination)
    requires WellFormed(outputRoot)
    requires DestinationFromPolicy(outputRoot, destination).Ok?
    ensures var resolved := DestinationFromPolicy(outputRoot, destination).value;
            && WellFormed(resolved)
            && DestinationPolicy(outputRoot, resolved).Ok?
            && DestinationFromPolicy(outputRoot, DestinationPolicy(outputRoot, resolved).value) == Ok(resolved)
  {
    var resolved := DestinationFromPolicy(outputRoot, destination).value;
    if destination.Sibling? {
      ValidComponentIsAName(destination.directory);
      var name := Components(destination.directory)[0].name;
      assert resolved == Parent(outputRoot).value + [Normal(name)];
      assert resolved[..|resolved| - 1] == Parent(outputRoot).value;
    }
    RecordableDestinations(outputRoot, resolved);
    DestinationRoundTrip(outputRoot, resolved);
  }

  // Report identities and staging names

  predicate IsHex(c: char) {
    '0' <= c <= '9' || 'a' <= c <= 'f' || 'A' <= c <= 'F'
  }

  predicate IsReportId(id: string) {
    |id| == 32 && forall i :: 0 <= i < |id| ==> IsHex(id[i])
  }

  function StagingName(id: string): string {
    STAGING_PREFIX + id + STAGING_SUFFIX
  }

  function StripPrefix(s: string, prefix: string): Option<string> {
    if prefix <= s then Some(s[|prefix|..]) else None
  }

  function StripSuffix(s: string, suffix: string): Option<string> {
    if |suffix| <= |s| && s[|s| - |suffix|..] == suffix then Some(s[..|s| - |suffix|]) else None
  }

  function StagingReportId(name: string): Option<string> {
    var tail := StripPrefix(name, STAGING_PREFIX);
    if tail.None? then None else
      var id := StripSuffix(tail.value, STAGING_SUFFIX);
      if id.Some? && IsReportId(id.value) then id else None
  }

  /** Staging names and report identities determine each other, and no staging name is a report name. */
  lemma StagingNamesAreExact(name: string, id: string)
    requires IsReportId(id)
    ensures StagingReportId(name) == Some(id) <==> name == StagingName(id)
    ensures StagingName(id) != id && !IsReportId(StagingName(id))
  {
    var tail := id + STAGING_SUFFIX;
    assert StagingName(id) == STAGING_PREFIX + tail;
    assert StagingName(id)[|STAGING_PREFIX|..] == tail;
    assert tail[|tail| - |STAGING_SUFFIX|..] == STAGING_SUFFIX && tail[..|tail| - |STAGING_SUFFIX|] == id;
    assert STAGING_PREFIX <= StagingName(id);
    if StagingReportId(name) == Some(id) {
      var rest := StripPrefix(name, STAGING_PREFIX).value;
      assert rest == id + STAGING_SUFFIX;
      assert name == STAGING_PREFIX + rest;
    }
  }
}
